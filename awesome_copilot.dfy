/**
 * The `toggle` command of the awesome-copilot command-line tool
 * (awesome-copilot.js): argument handling, the edit of one configuration
 * section, and the summary of what a collection toggle changed.
 *
 * Reading and writing files is injected: `readConfig(path)` gives the parsed
 * configuration document or the error loading it raises, `catalog(section)` the
 * items available in a section, and `load(name)` the item paths of a collection.
 * Console output is not modelled; the operations return what they would report.
 */
module AwesomeCopilot {
  import opened Wrappers
  import opened Text
  import opened Sorting
  import opened ConfigManager

  const DefaultConfigPath: string := "awesome-copilot.config.yml"

  /** CONFIG_FLAG_ALIASES. */
  predicate IsConfigFlag(arg: string)
  {
    arg == "--config" || arg == "-c"
  }

  predicate NoFlags(args: seq<string>)
  {
    forall i :: 0 <= i < |args| ==> !IsConfigFlag(args[i])
  }

  type Parsed = Result<(seq<string>, string), string>

  function Prepend(prefix: seq<string>, r: Parsed): Parsed
  {
    match r
    case Ok((rest, p)) => Ok((prefix + rest, p))
    case Err(e) => Err(e)
  }

  const MissingConfigValue: string := "Missing configuration file after --config flag."

  /**
   * The flag-removal pass of extractConfigOption, read left to right: a flag
   * takes the next argument, whatever it is, as the configuration path.
   */
  function StripConfigFlags(args: seq<string>, path: string): Parsed
  {
    if args == [] then Ok(([], path))
    else if IsConfigFlag(args[0]) then
      if |args| == 1 then Err(MissingConfigValue) else StripConfigFlags(args[2..], args[1])
    else Prepend([args[0]], StripConfigFlags(args[1..], path))
  }

  /** isConfigFilePath: a YAML file name or anything with a path separator. */
  function IsConfigFilePath(value: string): (r: bool)
    ensures r <==> || EndsWith(value, ".yml") || EndsWith(value, ".yaml")
                   || exists i :: 0 <= i < |value| && (value[i] == '/' || value[i] == '\\')
  {
    ContainsChar(value, '/');
    ContainsChar(value, '\\');
    EndsWith(value, ".yml") || EndsWith(value, ".yaml") || Contains(value, "/") || Contains(value, "\\")
  }

  /** What extractConfigOption returns: the flags removed, then a trailing path-like argument taken as the path. */
  function ExtractConfigSpec(rawArgs: seq<string>): Parsed
  {
    match StripConfigFlags(rawArgs, DefaultConfigPath)
    case Err(e) => Err(e)
    case Ok((args, p)) =>
      if |args| > 0 && IsConfigFilePath(args[|args| - 1]) then Ok((args[..|args| - 1], args[|args| - 1]))
      else Ok((args, p))
  }

  lemma PrependAssoc(prefix: seq<string>, x: string, r: Parsed)
    ensures Prepend(prefix, Prepend([x], r)) == Prepend(prefix + [x], r)
  {
    if r.Ok? {
      assert prefix + ([x] + r.value.0) == (prefix + [x]) + r.value.0;
    }
  }

  /** A flag with a value after it sets the path and drops both. */
  lemma StripAtFlag(args: seq<string>, i: nat, path: string)
    requires i + 1 < |args| && IsConfigFlag(args[i])
    ensures StripConfigFlags(args[i..], path) == StripConfigFlags(args[i + 2..], args[i + 1])
  {
    assert args[i..][2..] == args[i + 2..];
  }

  /** A flag with nothing after it is the missing-value error, whatever came before. */
  lemma StripAtLastFlag(args: seq<string>, i: nat, path: string)
    requires i + 1 == |args| && IsConfigFlag(args[i])
    ensures Prepend(args[..i], StripConfigFlags(args[i..], path)) == Err(MissingConfigValue)
  {
  }

  /** Any other argument is kept in place. */
  lemma StripPastOther(args: seq<string>, i: nat, path: string)
    requires i < |args| && !IsConfigFlag(args[i])
    ensures Prepend(args[..i], StripConfigFlags(args[i..], path)) == Prepend(args[..i + 1], StripConfigFlags(args[i + 1..], path))
  {
    assert args[i..][1..] == args[i + 1..];
    PrependAssoc(args[..i], args[i], StripConfigFlags(args[i + 1..], path));
    assert args[..i] + [args[i]] == args[..i + 1];
  }

  /** Splicing out a flag and its value leaves the rest of the pass to the arguments after them. */
  lemma SpliceFlag(args: seq<string>, i: nat, path: string)
    requires i + 1 < |args| && IsConfigFlag(args[i])
    ensures var spliced := args[..i] + args[i + 2..];
      Prepend(args[..i], StripConfigFlags(args[i..], path))
      == Prepend(spliced[..i], StripConfigFlags(spliced[i..], args[i + 1]))
  {
    StripAtFlag(args, i, path);
    var spliced := args[..i] + args[i + 2..];
    assert spliced[..i] == args[..i] && spliced[i..] == args[i + 2..];
  }

  /** Before the pass nothing is kept yet; after it the kept arguments are all there is. */
  lemma StripBounds(args: seq<string>, path: string)
    ensures StripConfigFlags(args, path) == Prepend(args[..0], StripConfigFlags(args[0..], path))
    ensures Prepend(args[..|args|], StripConfigFlags(args[|args|..], path)) == Ok((args, path))
  {
    assert args[..0] == [] && args[0..] == args;
    match StripConfigFlags(args, path) {
      case Ok((rest, _)) => assert [] + rest == rest;
      case Err(_) =>
    }
    assert args[..|args|] == args && args[|args|..] == [] && args + [] == args;
  }

  /** The flag loop of extractConfigOption, splicing the argument list in place as the source does. */
  method StripFlags(rawArgs: seq<string>) returns (r: Parsed)
    ensures r == StripConfigFlags(rawArgs, DefaultConfigPath)
  {
    var args := rawArgs;
    var configPath := DefaultConfigPath;
    var i: int := 0;
    StripBounds(rawArgs, DefaultConfigPath);
    while i < |args|
      invariant 0 <= i <= |args|
      invariant StripConfigFlags(rawArgs, DefaultConfigPath) == Prepend(args[..i], StripConfigFlags(args[i..], configPath))
      decreases |args| - i
    {
      if IsConfigFlag(args[i]) {
        if i == |args| - 1 {
          StripAtLastFlag(args, i, configPath);
          return Err(MissingConfigValue);
        }
        SpliceFlag(args, i, configPath);
        configPath := args[i + 1];
        args := args[..i] + args[i + 2..];
        i := i - 1;
      } else {
        StripPastOther(args, i, configPath);
      }
      i := i + 1;
    }
    StripBounds(args, configPath);
    r := Ok((args, configPath));
  }

  /** extractConfigOption: the flag loop, then a trailing path-like argument popped as the path. */
  method ExtractConfigOption(rawArgs: seq<string>) returns (r: Parsed)
    ensures r == ExtractConfigSpec(rawArgs)
  {
    r := StripFlags(rawArgs);
    if r.Err? {
      return;
    }
    var (args, configPath) := r.value;
    if |args| > 0 {
      var potentialPath := args[|args| - 1];
      if IsConfigFilePath(potentialPath) {
        configPath := potentialPath;
        args := args[..|args| - 1];
      }
    }
    r := Ok((args, configPath));
  }

  /** No configuration flag survives the flag-removal pass. */
  lemma {:induction false} StripLeavesNoFlags(args: seq<string>, path: string)
    ensures StripConfigFlags(args, path).Ok? ==> NoFlags(StripConfigFlags(args, path).value.0)
  {
    if args != [] {
      if IsConfigFlag(args[0]) {
        if |args| > 1 {
          StripLeavesNoFlags(args[2..], args[1]);
        }
      } else {
        StripLeavesNoFlags(args[1..], path);
      }
    }
  }

  /** Arguments without flags pass through unchanged, with the path they started with. */
  lemma {:induction false} StripWithoutFlags(args: seq<string>, path: string)
    requires NoFlags(args)
    ensures StripConfigFlags(args, path) == Ok((args, path))
  {
    if args != [] {
      StripWithoutFlags(args[1..], path);
      assert [args[0]] + args[1..] == args;
    }
  }

  /** The pass works piecewise: what follows a cleanly processed prefix is processed with the prefix's path. */
  lemma {:induction false} StripAppend(a: seq<string>, b: seq<string>, path: string)
    requires StripConfigFlags(a, path).Ok?
    ensures StripConfigFlags(a + b, path)
      == Prepend(StripConfigFlags(a, path).value.0, StripConfigFlags(b, StripConfigFlags(a, path).value.1))
  {
    if a == [] {
      assert a + b == b;
      match StripConfigFlags(b, path) {
        case Ok((rest, _)) => assert [] + rest == rest;
        case Err(_) =>
      }
    } else if IsConfigFlag(a[0]) {
      assert (a + b)[2..] == a[2..] + b;
      StripAppend(a[2..], b, a[1]);
    } else {
      assert (a + b)[1..] == a[1..] + b;
      StripAppend(a[1..], b, path);
      var ra := StripConfigFlags(a[1..], path).value.0;
      match StripConfigFlags(b, StripConfigFlags(a, path).value.1) {
        case Ok((rest, _)) => assert [a[0]] + (ra + rest) == ([a[0]] + ra) + rest;
        case Err(_) =>
      }
    }
  }

  /** The value of the last configuration flag wins, and the other arguments keep their order. */
  lemma LastConfigFlagWins(a: seq<string>, flag: string, value: string, b: seq<string>, path: string)
    requires IsConfigFlag(flag) && NoFlags(b)
    requires StripConfigFlags(a, path).Ok?
    ensures StripConfigFlags(a + [flag, value] + b, path) == Ok((StripConfigFlags(a, path).value.0 + b, value))
  {
    StripAppend(a, [flag, value] + b, path);
    assert a + [flag, value] + b == a + ([flag, value] + b);
    assert ([flag, value] + b)[2..] == b;
    StripWithoutFlags(b, value);
  }

  /** A flag in final position that no earlier flag consumed is an error. */
  lemma TrailingConfigFlagFails(a: seq<string>, flag: string, path: string)
    requires IsConfigFlag(flag) && NoFlags(a)
    ensures StripConfigFlags(a + [flag], path) == Err(MissingConfigValue)
  {
    StripWithoutFlags(a, path);
    StripAppend(a, [flag], path);
  }

  /** A final argument that looks like a path becomes the configuration path. */
  lemma TrailingPathIsConfig(args: seq<string>, file: string)
    requires NoFlags(args) && !IsConfigFlag(file) && IsConfigFilePath(file)
    ensures ExtractConfigSpec(args + [file]) == Ok((args, file))
  {
    assert NoFlags(args + [file]);
    StripWithoutFlags(args + [file], DefaultConfigPath);
    assert (args + [file])[..|args|] == args;
  }

  // ---------------------------------------------------------------------------
  // Small helpers

  const OnTokens: seq<string> := ["on", "enable", "enabled", "true", "yes", "y"]
  const OffTokens: seq<string> := ["off", "disable", "disabled", "false", "no", "n"]

  /** parseStateToken: case-insensitive on/off words. */
  function ParseStateToken(token: string): (r: Result<bool, string>)
    ensures r == Ok(true) <==> LowerAscii(token) in OnTokens
    ensures r == Ok(false) <==> LowerAscii(token) in OffTokens
    ensures r.Err? <==> LowerAscii(token) !in OnTokens + OffTokens
  {
    var normalized := LowerAscii(token);
    if normalized in OnTokens then Ok(true)
    else if normalized in OffTokens then Ok(false)
    else Err("State must be 'on' or 'off'.")
  }

  /** The state words are read without regard to case. */
  lemma ParseStateTokenIgnoresCase(token: string)
    ensures ParseStateToken(LowerAscii(token)) == ParseStateToken(token)
  {
    assert LowerAscii(LowerAscii(token)) == LowerAscii(token);
  }

  /** The parse of a few spellings. */
  lemma ParseStateTokenExamples()
    ensures ParseStateToken("ON") == Ok(true) && ParseStateToken("Yes") == Ok(true)
    ensures ParseStateToken("off") == Ok(false) && ParseStateToken("N") == Ok(false)
    ensures ParseStateToken("maybe").Err?
  {
    assert LowerAscii("ON") == "on";
    assert LowerAscii("Yes") == "yes";
    assert LowerAscii("off") == "off";
    assert LowerAscii("N") == "n";
    assert LowerAscii("maybe") == "maybe";
  }

  /** SECTION_METADATA lookup by lower-cased name. */
  function ParseSection(name: string): Option<Section>
  {
    match name
    case "prompts" => Some(Prompts)
    case "instructions" => Some(Instructions)
    case "chatmodes" => Some(ChatModes)
    case "collections" => Some(Collections)
    case _ => None
  }

  /** Every section key is recognised. */
  lemma ParseSectionComplete(name: string)
    ensures ParseSection(name).None? ==> forall s :: SectionKey(s) != name
    ensures ParseSection(name).Some? ==> SectionKey(ParseSection(name).value) == name
  {
    forall s ensures ParseSection(name).None? ==> SectionKey(s) != name {
      match s
      case Prompts =>
      case Instructions =>
      case ChatModes =>
      case Collections =>
    }
  }

  /** validateSectionType: the lower-cased name of a configuration section, or the error naming the input. */
  function ValidateSectionType(input: string): (r: Result<Section, string>)
    ensures r.Ok? <==> exists s :: SectionKey(s) == LowerAscii(input)
    ensures r.Ok? ==> SectionKey(r.value) == LowerAscii(input)
  {
    match ParseSection(LowerAscii(input))
    case Some(s) =>
      ParseSectionComplete(LowerAscii(input));
      Ok(s)
    case None =>
      ParseSectionComplete(LowerAscii(input));
      Err("Unknown section '" + input + "'. Expected one of: prompts, instructions, chatmodes, collections.")
  }

  function Label(s: Section): string
  {
    match s
    case Prompts => "Prompts"
    case Instructions => "Instructions"
    case ChatModes => "Chat Modes"
    case Collections => "Collections"
  }

  function Singular(s: Section): string
  {
    match s
    case Prompts => "prompt"
    case Instructions => "instruction"
    case ChatModes => "chat mode"
    case Collections => "collection"
  }

  /** The case-insensitive containment findClosestMatch tests. */
  predicate LooselyMatches(candidate: string, target: string)
  {
    Contains(LowerAscii(candidate), LowerAscii(target))
  }

  /** findClosestMatch: the first candidate that contains the target, ignoring case. */
  function FindClosestMatch(target: string, candidates: seq<string>): (r: Option<string>)
    ensures r.None? <==> forall i :: 0 <= i < |candidates| ==> !LooselyMatches(candidates[i], target)
    ensures r.Some? ==> exists i :: 0 <= i < |candidates| && candidates[i] == r.value
                                && LooselyMatches(candidates[i], target)
                                && forall j :: 0 <= j < i ==> !LooselyMatches(candidates[j], target)
  {
    if candidates == [] then None
    else if LooselyMatches(candidates[0], target) then Some(candidates[0])
    else
      var r := FindClosestMatch(target, candidates[1..]);
      if r.Some? then
        var i :| 0 <= i < |candidates[1..]| && candidates[1..][i] == r.value
          && LooselyMatches(candidates[1..][i], target)
          && forall j :: 0 <= j < i ==> !LooselyMatches(candidates[1..][j], target);
        assert candidates[i + 1] == r.value;
        assert forall j :: 0 <= j < i + 1 ==> !LooselyMatches(candidates[j], target) by {
          forall j | 0 < j < i + 1 ensures !LooselyMatches(candidates[j], target) {
            assert candidates[j] == candidates[1..][j - 1];
          }
        }
        r
      else
        assert forall i :: 0 < i < |candidates| ==> candidates[i] == candidates[1..][i - 1];
        r
  }

  datatype ContextWarning = Silent | HeadsUp | Exceeded

  /** CONTEXT_WARNING_CHAR_LIMIT; collections have no limit. */
  function CharLimit(s: Section): Option<nat>
  {
    match s
    case Instructions => Some(90000)
    case Prompts => Some(45000)
    case ChatModes => Some(30000)
    case Collections => None
  }

  /**
   * maybeWarnAboutContext: a warning at or past the limit, a heads-up from
   * four fifths of it. `limit * 0.8` is exact in binary floating point for the
   * three limits, so the comparison is written in integers.
   */
  function MaybeWarnAboutContext(section: Section, totalCharacters: int): (r: ContextWarning)
    ensures r == Exceeded <==> CharLimit(section).Some? && totalCharacters > 0 && totalCharacters >= CharLimit(section).value
    ensures r == HeadsUp <==> (CharLimit(section).Some? && totalCharacters > 0
                              && 5 * totalCharacters >= 4 * CharLimit(section).value && totalCharacters < CharLimit(section).value)
    ensures totalCharacters <= 0 || CharLimit(section).None? ==> r == Silent
  {
    match CharLimit(section)
    case None => Silent
    case Some(limit) =>
      if totalCharacters <= 0 then Silent
      else if totalCharacters >= limit then Exceeded
      else if 5 * totalCharacters >= 4 * limit then HeadsUp
      else Silent
  }

  /** The thresholds for instructions: 72000 characters gives a heads-up, 90000 the warning. */
  lemma InstructionThresholds()
    ensures MaybeWarnAboutContext(Instructions, 71999) == Silent
    ensures MaybeWarnAboutContext(Instructions, 72000) == HeadsUp
    ensures MaybeWarnAboutContext(Instructions, 89999) == HeadsUp
    ensures MaybeWarnAboutContext(Instructions, 90000) == Exceeded
    ensures MaybeWarnAboutContext(Collections, 1000000) == Silent
  {
  }

  // ---------------------------------------------------------------------------
  // The summary of a collection toggle (showCollectionDelta)

  /** What showCollectionDelta reports, each count summed over the three artifact sections. */
  datatype Delta = Delta(newlyEnabled: nat, newlyDisabled: nat, blocked: nat)

  const ArtifactSections: seq<ArtifactSection> := [Prompts, Instructions, ChatModes]

  /** The item's reason is `collections` and its `via` list names the collection. */
  predicate ViaIncludes(st: SectionStates, item: string, collection: string)
  {
    item in st.reasons && st.reasons[item].FromCollections? && collection in st.reasons[item].via
  }

  /** Enabled after but not before, and enabled after because of the collection. */
  function NewlyEnabled(before: SectionStates, after: SectionStates, collection: string): set<string>
  {
    set item | item in after.enabled && item !in before.enabled && ViaIncludes(after, item, collection)
  }

  /** Enabled before but not after, and enabled before because of the collection. */
  function NewlyDisabled(before: SectionStates, after: SectionStates, collection: string): set<string>
  {
    set item | item in before.enabled && item !in after.enabled && ViaIncludes(before, item, collection)
  }

  /** The item a path stands for belongs to section `sec` and stays explicitly disabled. */
  predicate IsBlocked(key: Option<ItemRef>, after: SectionStates, sec: ArtifactSection)
  {
    key.Some? && key.value.0 == sec && key.value.1 in after.reasons && after.reasons[key.value.1] == Explicit(false)
  }

  /** The names the blocked computation pushes for one section, one per path, in path order. */
  function BlockedItems(paths: seq<string>, keyOf: string -> Option<ItemRef>, after: SectionStates,
                        sec: ArtifactSection): seq<string>
  {
    if paths == [] then []
    else
      var key := keyOf(paths[|paths| - 1]);
      BlockedItems(paths[..|paths| - 1], keyOf, after, sec) + (if IsBlocked(key, after, sec) then [key.value.1] else [])
  }

  /** Blocked items are exactly the collection's items of the section whose reason is an explicit `false`. */
  lemma {:induction false} BlockedItemsMeaning(paths: seq<string>, keyOf: string -> Option<ItemRef>,
                                               after: SectionStates, sec: ArtifactSection, n: string)
    ensures n in BlockedItems(paths, keyOf, after, sec)
      <==> Lists(paths, keyOf, (sec, n)) && n in after.reasons && after.reasons[n] == Explicit(false)
  {
    if paths != [] {
      BlockedItemsMeaning(paths[..|paths| - 1], keyOf, after, sec, n);
    }
  }

  /** One more path adds its name when it is blocked, and nothing otherwise. */
  lemma BlockedItemsNext(paths: seq<string>, i: nat, keyOf: string -> Option<ItemRef>, after: SectionStates,
                         sec: ArtifactSection)
    requires i < |paths|
    ensures var key := keyOf(paths[i]);
      BlockedItems(paths[..i + 1], keyOf, after, sec)
      == BlockedItems(paths[..i], keyOf, after, sec) + (if IsBlocked(key, after, sec) then [key.value.1] else [])
  {
    assert paths[..i + 1][..i] == paths[..i];
  }

  /** The names config-manager.js exports. */
  const ConfigManagerExports: set<string> := {
    "DEFAULT_CONFIG_PATH", "CONFIG_SECTIONS", "SECTION_METADATA", "loadConfig", "saveConfig",
    "splitHeaderAndBody", "ensureConfigStructure", "sortObjectKeys", "countEnabledItems",
    "getAllAvailableItems", "computeEffectiveItemStates"
  }

  /** The export list with the two path helpers the blocked computation calls. */
  const CorrectedExports: set<string> := ConfigManagerExports + {"extractItemName", "getSectionFromPath"}

  predicate HelpersExported(exports: set<string>)
  {
    "extractItemName" in exports && "getSectionFromPath" in exports
  }

  /**
   * What the blocked computation reports for one section: a helper missing from
   * the export table throws on the first path, before anything is pushed, and
   * the surrounding `try` discards the error.
   */
  function BlockedReported(paths: seq<string>, after: SectionStates, sec: ArtifactSection, exports: set<string>): seq<string>
  {
    if HelpersExported(exports) then BlockedItems(paths, ItemKey, after, sec) else []
  }

  /** The blocked loop of showCollectionDelta for one section. */
  method CollectBlocked(paths: seq<string>, after: SectionStates, sec: ArtifactSection, exports: set<string>)
    returns (blocked: seq<string>)
    ensures blocked == BlockedReported(paths, after, sec, exports)
  {
    var keyOf := ItemKey;
    blocked := [];
    for i := 0 to |paths|
      invariant !HelpersExported(exports) ==> i == 0
      invariant blocked == BlockedItems(paths[..i], keyOf, after, sec)
    {
      if !HelpersExported(exports) {
        return;
      }
      var key := keyOf(paths[i]);
      BlockedItemsNext(paths, i, keyOf, after, sec);
      if key.Some? && key.value.0 == sec {
        var itemName := key.value.1;
        if itemName in after.reasons && after.reasons[itemName] == Explicit(false) {
          blocked := blocked + [itemName];
        }
      }
    }
    assert paths[..|paths|] == paths;
  }

  /** As shipped, config-manager.js does not export the helpers, so nothing is ever reported blocked. */
  lemma ShippedBlockedAlwaysEmpty(paths: seq<string>, after: SectionStates, sec: ArtifactSection)
    ensures BlockedReported(paths, after, sec, ConfigManagerExports) == []
  {
  }

  lemma ExampleBasename()
    ensures Basename("prompts/a.prompt.md") == "a.prompt.md"
  {
    var p := "prompts/a.prompt.md";
    assert TrimEnd(p, IsSlash) == p;
    assert p[7] == '/';
  }

  lemma ExampleItemKey()
    ensures ItemKey("prompts/a.prompt.md") == Some((Prompts, "a"))
  {
    var p := "prompts/a.prompt.md";
    assert InSection(p, Prompts) by {
      assert StartsWith(p, "prompts/");
      assert EndsWith(p, ".prompt.md");
    }
    SectionFromPathIff(p, Prompts);
    ExtractItemNameOfSection(p, Prompts);
    ExampleBasename();
    assert ExtractItemName(p) + ".prompt.md" == "a" + ".prompt.md";
    assert ExtractItemName(p) == (ExtractItemName(p) + ".prompt.md")[..|ExtractItemName(p)|];
  }

  /** An input on which the shipped computation misses a blocked item the intended one reports. */
  lemma ShippedBlockedMissesItem()
    ensures var st := SectionStates({}, map["a" := Explicit(false)]);
      && BlockedReported(["prompts/a.prompt.md"], st, Prompts, CorrectedExports) == ["a"]
      && BlockedReported(["prompts/a.prompt.md"], st, Prompts, ConfigManagerExports) == []
  {
    ExampleItemKey();
    var st := SectionStates({}, map["a" := Explicit(false)]);
    var paths: seq<string> := ["prompts/a.prompt.md"];
    ShippedBlockedAlwaysEmpty(paths, st, Prompts);
    CorrectedBlockedReported(paths, st, Prompts);
    assert paths[..0] == [];
    assert IsBlocked(ItemKey(paths[0]), st, Prompts);
  }

  /** With the helpers exported, the report is the blocked items of the section. */
  lemma CorrectedBlockedReported(paths: seq<string>, after: SectionStates, sec: ArtifactSection)
    ensures BlockedReported(paths, after, sec, CorrectedExports) == BlockedItems(paths, ItemKey, after, sec)
  {
    assert HelpersExported(CorrectedExports);
  }

  /** Pushes every member of `s` that `keep` accepts, each once, in some iteration order. */
  method CollectWhere(s: set<string>, keep: string -> bool) returns (out: seq<string>)
    ensures Distinct(out)
    ensures forall x :: x in out <==> x in s && keep(x)
  {
    out := [];
    var pending := s;
    while pending != {}
      invariant pending <= s
      invariant Distinct(out)
      invariant forall x :: x in out <==> x in s - pending && keep(x)
      decreases |pending|
    {
      var x :| x in pending;
      if keep(x) {
        out := out + [x];
      }
      pending := pending - {x};
    }
  }

  /** A list without repeats is as long as the set of its elements is large. */
  lemma {:induction false} DistinctCard(s: seq<string>)
    requires Distinct(s)
    ensures |(set x | x in s)| == |s|
  {
    if s != [] {
      var init := s[..|s| - 1];
      DistinctCard(init);
      assert (set x | x in s) == (set x | x in init) + {s[|s| - 1]};
      assert s[|s| - 1] !in init;
    }
  }

  function NewlyEnabledIn(before: EffectiveStates, after: EffectiveStates, collection: string,
                          secs: seq<ArtifactSection>): nat
  {
    if secs == [] then 0
    else
      var sec := secs[|secs| - 1];
      NewlyEnabledIn(before, after, collection, secs[..|secs| - 1]) + |NewlyEnabled(before.Of(sec), after.Of(sec), collection)|
  }

  function NewlyDisabledIn(before: EffectiveStates, after: EffectiveStates, collection: string,
                           secs: seq<ArtifactSection>): nat
  {
    if secs == [] then 0
    else
      var sec := secs[|secs| - 1];
      NewlyDisabledIn(before, after, collection, secs[..|secs| - 1]) + |NewlyDisabled(before.Of(sec), after.Of(sec), collection)|
  }

  function BlockedIn(paths: seq<string>, after: EffectiveStates, exports: set<string>, secs: seq<ArtifactSection>): nat
  {
    if secs == [] then 0
    else
      var sec := secs[|secs| - 1];
      BlockedIn(paths, after, exports, secs[..|secs| - 1]) + |BlockedReported(paths, after.Of(sec), sec, exports)|
  }

  /** When no item lost its enabled state, nothing is newly disabled. */
  lemma {:induction false} NoneNewlyDisabled(before: EffectiveStates, after: EffectiveStates, collection: string,
                                             secs: seq<ArtifactSection>)
    requires forall sec: ArtifactSection :: before.Of(sec).enabled <= after.Of(sec).enabled
    ensures NewlyDisabledIn(before, after, collection, secs) == 0
  {
    if secs != [] {
      NoneNewlyDisabled(before, after, collection, secs[..|secs| - 1]);
      var sec := secs[|secs| - 1];
      assert NewlyDisabled(before.Of(sec), after.Of(sec), collection) == {};
    }
  }

  /** When no item gained its enabled state, nothing is newly enabled. */
  lemma {:induction false} NoneNewlyEnabled(before: EffectiveStates, after: EffectiveStates, collection: string,
                                            secs: seq<ArtifactSection>)
    requires forall sec: ArtifactSection :: after.Of(sec).enabled <= before.Of(sec).enabled
    ensures NewlyEnabledIn(before, after, collection, secs) == 0
  {
    if secs != [] {
      NoneNewlyEnabled(before, after, collection, secs[..|secs| - 1]);
      var sec := secs[|secs| - 1];
      assert NewlyEnabled(before.Of(sec), after.Of(sec), collection) == {};
    }
  }

  /** One section of showCollectionDelta: the sizes of its three lists. */
  method SectionDelta(beforeSet: SectionStates, afterSet: SectionStates, collectionName: string, section: ArtifactSection,
                      collectionEnabled: bool, listed: Option<seq<string>>, exports: set<string>)
    returns (enabledHere: nat, disabledHere: nat, blockedHere: nat)
    ensures enabledHere == |NewlyEnabled(beforeSet, afterSet, collectionName)|
    ensures disabledHere == |NewlyDisabled(beforeSet, afterSet, collectionName)|
    ensures blockedHere == if collectionEnabled && listed.Some? then |BlockedReported(listed.value, afterSet, section, exports)| else 0
  {
    var newlyEnabled := CollectWhere(afterSet.enabled, item => item !in beforeSet.enabled && ViaIncludes(afterSet, item, collectionName));
    assert (set x | x in newlyEnabled) == NewlyEnabled(beforeSet, afterSet, collectionName);
    DistinctCard(newlyEnabled);
    var newlyDisabled := CollectWhere(beforeSet.enabled, item => item !in afterSet.enabled && ViaIncludes(beforeSet, item, collectionName));
    assert (set x | x in newlyDisabled) == NewlyDisabled(beforeSet, afterSet, collectionName);
    DistinctCard(newlyDisabled);
    var blocked: seq<string> := [];
    if collectionEnabled && listed.Some? {
      blocked := CollectBlocked(listed.value, afterSet, section, exports);
    }
    enabledHere, disabledHere, blockedHere := |newlyEnabled|, |newlyDisabled|, |blocked|;
  }

  /**
   * showCollectionDelta: the numbers of items the toggle newly enabled and newly
   * disabled through this collection, and, when it was enabled, of the items it
   * lists that explicit `false` flags keep disabled. `listed` is the collection's
   * item paths when its file exists.
   */
  method ShowCollectionDelta(before: Option<EffectiveStates>, after: Option<EffectiveStates>, collectionName: string,
                             collectionEnabled: bool, listed: Option<seq<string>>, exports: set<string>)
    returns (r: Option<Delta>)
    ensures r.None? <==> before.None? || after.None?
    ensures r.Some? ==> r.value.newlyEnabled == NewlyEnabledIn(before.value, after.value, collectionName, ArtifactSections)
    ensures r.Some? ==> r.value.newlyDisabled == NewlyDisabledIn(before.value, after.value, collectionName, ArtifactSections)
    ensures r.Some? ==> (r.value.blocked
                         == if collectionEnabled && listed.Some? then BlockedIn(listed.value, after.value, exports, ArtifactSections) else 0)
  {
    if before.None? || after.None? {
      return None;
    }
    var beforeEffective := before.value;
    var afterEffective := after.value;
    var totalNewlyEnabled := 0;
    var totalNewlyDisabled := 0;
    var totalBlocked := 0;
    for j := 0 to |ArtifactSections|
      invariant totalNewlyEnabled == NewlyEnabledIn(beforeEffective, afterEffective, collectionName, ArtifactSections[..j])
      invariant totalNewlyDisabled == NewlyDisabledIn(beforeEffective, afterEffective, collectionName, ArtifactSections[..j])
      invariant totalBlocked
        == if collectionEnabled && listed.Some? then BlockedIn(listed.value, afterEffective, exports, ArtifactSections[..j]) else 0
    {
      assert ArtifactSections[..j + 1][..j] == ArtifactSections[..j];
      var section := ArtifactSections[j];
      var enabledHere, disabledHere, blockedHere :=
        SectionDelta(beforeEffective.Of(section), afterEffective.Of(section), collectionName, section,
                     collectionEnabled, listed, exports);
      totalNewlyEnabled := totalNewlyEnabled + enabledHere;
      totalNewlyDisabled := totalNewlyDisabled + disabledHere;
      totalBlocked := totalBlocked + blockedHere;
    }
    assert ArtifactSections[..|ArtifactSections|] == ArtifactSections;
    r := Some(Delta(totalNewlyEnabled, totalNewlyDisabled, totalBlocked));
  }

  // ---------------------------------------------------------------------------
  // The toggle command (handleToggleCommand)

  const UsageMessage: string := "Usage: awesome-copilot toggle <section> <name|all> [on|off] [--config <file>]"
  const StateRequiredForAll: string := "Specify 'on' or 'off' when toggling all items."

  function NothingToToggle(s: Section): string
  {
    "No " + LowerAscii(Label(s)) + " available to toggle."
  }

  /** The unknown-item error, with the suggestion when there is a non-empty one. */
  function UnknownItemMessage(s: Section, itemName: string, suggestion: Option<string>): string
  {
    if suggestion.Some? && suggestion.value != "" then
      "Unknown " + Singular(s) + " '" + itemName + "'. Did you mean '" + suggestion.value + "'?"
    else "Unknown " + Singular(s) + " '" + itemName + "'."
  }

  /** What the command line asks for: the configuration file, the section, the item and the state, if any. */
  datatype ToggleRequest = ToggleRequest(configPath: string, section: Section, itemName: string, desired: Option<bool>)

  /**
   * The argument checks of handleToggleCommand, in their order: the flags, the
   * argument count, the section name, then the state word. An empty state
   * argument counts as absent.
   */
  function ParseToggleArgs(rawArgs: seq<string>): (r: Result<ToggleRequest, string>)
    ensures ExtractConfigSpec(rawArgs).Err? ==> r == Err(ExtractConfigSpec(rawArgs).error)
    ensures ExtractConfigSpec(rawArgs).Ok? ==>
      var args := ExtractConfigSpec(rawArgs).value.0;
      && (|args| < 2 ==> r == Err(UsageMessage))
      && (|args| >= 2 && ValidateSectionType(args[0]).Err? ==> r == Err(ValidateSectionType(args[0]).error))
      && (r.Ok? <==> |args| >= 2 && ValidateSectionType(args[0]).Ok?
                     && (|args| > 2 && args[2] != "" ==> ParseStateToken(args[2]).Ok?))
    ensures r.Ok? ==>
      var args := ExtractConfigSpec(rawArgs).value.0;
      && r.value.configPath == ExtractConfigSpec(rawArgs).value.1
      && SectionKey(r.value.section) == LowerAscii(args[0])
      && r.value.itemName == args[1]
      && (r.value.desired.Some? <==> |args| > 2 && args[2] != "")
      && (r.value.desired.Some? ==> ParseStateToken(args[2]) == Ok(r.value.desired.value))
  {
    match ExtractConfigSpec(rawArgs)
    case Err(e) => Err(e)
    case Ok((args, configPath)) =>
      if |args| < 2 then Err(UsageMessage)
      else
        match ValidateSectionType(args[0])
        case Err(e) => Err(e)
        case Ok(section) =>
          if |args| > 2 && args[2] != "" then
            match ParseStateToken(args[2])
            case Err(e) => Err(e)
            case Ok(b) => Ok(ToggleRequest(configPath, section, args[1], Some(b)))
          else Ok(ToggleRequest(configPath, section, args[1], None))
  }

  /** The section's entries in a document, none when it is not an object. */
  function SectionEntries(config: JsValue, sec: Section): Entries
  {
    var v := Get(BaseEntries(config), SectionKey(sec));
    if v.JsObject? then v.entries else []
  }

  /** The items a toggle sets: every catalog item for `all`, otherwise the named one. */
  predicate IsToggled(itemName: string, items: seq<string>, n: string)
  {
    if itemName == "all" then n in items else n == itemName
  }

  /** The `all` branch: every catalog item of the section copy set to the state, in catalog order. */
  method ToggleAll(section: Entries, items: seq<string>, state: bool) returns (r: Entries)
    ensures forall n :: Get(r, n) == if n in items then JsBool(state) else Get(section, n)
    ensures AllBool(section) ==> AllBool(r)
  {
    r := section;
    for i := 0 to |items|
      invariant forall n :: Get(r, n) == if n in items[..i] then JsBool(state) else Get(section, n)
      invariant AllBool(section) ==> AllBool(r)
    {
      assert items[..i + 1] == items[..i] + [items[i]];
      if AllBool(r) {
        PutAllBool(r, items[i], state);
      }
      r := Put(r, items[i], JsBool(state));
    }
    assert items[..|items|] == items;
  }

  /** What a successful toggle reports and writes. */
  datatype Toggled = Toggled(configPath: string, saved: JsValue, newState: bool, enabledCount: nat,
                             totalAvailable: nat, warning: ContextWarning, delta: Option<Delta>)

  /**
   * The document a toggle saves, against the loaded document `config`: the
   * toggled items of the section take the new state and nothing else changes.
   */
  ghost predicate SavedAsToggled(saved: JsValue, newState: bool, req: ToggleRequest, items: seq<string>, config: JsValue)
  {
    var before := SectionEntries(config, req.section);
    && saved.JsObject?
    && newState == (if req.desired.Some? then req.desired.value else !Truthy(Get(before, req.itemName)))
    && (forall n :: Get(SectionEntries(saved, req.section), n)
                    == if IsToggled(req.itemName, items, n) then JsBool(newState) else Get(before, n))
    && (forall k :: k != SectionKey(req.section) ==> Get(BaseEntries(saved), k) == Get(BaseEntries(config), k))
  }

  /** What a successful toggle reports, given the loaded document `config`. */
  ghost predicate ToggleApplied(t: Toggled, req: ToggleRequest, items: seq<string>, config: JsValue)
  {
    && t.configPath == req.configPath
    && SavedAsToggled(t.saved, t.newState, req, items, config)
    && t.enabledCount == CountTruthy(SectionEntries(t.saved, req.section))
    && t.totalAvailable == |items|
  }

  /** `st` holds the effective states computeEffectiveItemStates gives every artifact section of `config`. */
  ghost predicate AllResolved(st: EffectiveStates, config: Entries, catalog: Section -> seq<string>,
                              load: string -> Option<seq<string>>)
  {
    forall sec: ArtifactSection :: SectionResolved(st.Of(sec), config, catalog(sec), load, sec)
  }

  /**
   * What showCollectionDelta counts for collection `name` toggled to `state`
   * between the states `before` and `after`, with the blocked items found
   * through the helpers the corrected export table provides.
   */
  function CollectionDelta(before: EffectiveStates, after: EffectiveStates, name: string, state: bool,
                           listed: Option<seq<string>>): Delta
  {
    Delta(NewlyEnabledIn(before, after, name, ArtifactSections),
          NewlyDisabledIn(before, after, name, ArtifactSections),
          if state && listed.Some? then BlockedIn(listed.value, after, CorrectedExports, ArtifactSections) else 0)
  }

  /** Two resolutions of one section agree on everything the delta reads. */
  lemma ResolvedAgree(s1: SectionStates, s2: SectionStates, config: Entries, items: seq<string>,
                      load: string -> Option<seq<string>>, sec: ArtifactSection)
    requires SectionResolved(s1, config, items, load, sec) && SectionResolved(s2, config, items, load, sec)
    ensures s1.enabled == s2.enabled
    ensures forall n, c :: ViaIncludes(s1, n, c) <==> ViaIncludes(s2, n, c)
    ensures forall n :: IsBlocked(n, s1, sec) <==> IsBlocked(n, s2, sec)
  {
    forall n | n in items
      ensures (n in s1.enabled <==> n in s2.enabled)
      ensures forall c :: ViaIncludes(s1, n, c) <==> ViaIncludes(s2, n, c)
      ensures s1.reasons[n] == Explicit(false) <==> s2.reasons[n] == Explicit(false)
    {
      assert Resolved(s1, n, ExplicitFlag(config, sec, n), Granting(CollectionEntries(config), load, (sec, n)));
      assert Resolved(s2, n, ExplicitFlag(config, sec, n), Granting(CollectionEntries(config), load, (sec, n)));
    }
  }

  /** States that agree on their explicit `false` entries block the same items. */
  lemma {:induction false} BlockedItemsAgree(paths: seq<string>, keyOf: string -> Option<ItemRef>,
                                             a: SectionStates, b: SectionStates, sec: ArtifactSection)
    requires forall n :: IsBlocked(n, a, sec) <==> IsBlocked(n, b, sec)
    ensures BlockedItems(paths, keyOf, a, sec) == BlockedItems(paths, keyOf, b, sec)
  {
    if paths != [] {
      BlockedItemsAgree(paths[..|paths| - 1], keyOf, a, b, sec);
    }
  }

  /** Over sections where the states agree, the three sums agree. */
  lemma {:induction false} DeltaSumsAgree(before1: EffectiveStates, after1: EffectiveStates,
                                          before2: EffectiveStates, after2: EffectiveStates,
                                          name: string, paths: seq<string>, secs: seq<ArtifactSection>)
    requires forall sec :: NewlyEnabled(before1.Of(sec), after1.Of(sec), name) == NewlyEnabled(before2.Of(sec), after2.Of(sec), name)
    requires forall sec :: NewlyDisabled(before1.Of(sec), after1.Of(sec), name) == NewlyDisabled(before2.Of(sec), after2.Of(sec), name)
    requires forall sec :: BlockedReported(paths, after1.Of(sec), sec, CorrectedExports) == BlockedReported(paths, after2.Of(sec), sec, CorrectedExports)
    ensures NewlyEnabledIn(before1, after1, name, secs) == NewlyEnabledIn(before2, after2, name, secs)
    ensures NewlyDisabledIn(before1, after1, name, secs) == NewlyDisabledIn(before2, after2, name, secs)
    ensures BlockedIn(paths, after1, CorrectedExports, secs) == BlockedIn(paths, after2, CorrectedExports, secs)
  {
    if secs != [] {
      DeltaSumsAgree(before1, after1, before2, after2, name, paths, secs[..|secs| - 1]);
    }
  }

  /**
   * The delta does not depend on which resolution of a document is taken: the
   * effective states pin it down, so it is the delta of the two documents.
   */
  lemma DeltaDetermined(config: Entries, saved: Entries, catalog: Section -> seq<string>, load: string -> Option<seq<string>>,
                        before1: EffectiveStates, after1: EffectiveStates, before2: EffectiveStates, after2: EffectiveStates,
                        name: string, state: bool, listed: Option<seq<string>>)
    requires AllResolved(before1, config, catalog, load) && AllResolved(before2, config, catalog, load)
    requires AllResolved(after1, saved, catalog, load) && AllResolved(after2, saved, catalog, load)
    ensures CollectionDelta(before1, after1, name, state, listed) == CollectionDelta(before2, after2, name, state, listed)
  {
    var paths := if listed.Some? then listed.value else [];
    forall sec: ArtifactSection
      ensures NewlyEnabled(before1.Of(sec), after1.Of(sec), name) == NewlyEnabled(before2.Of(sec), after2.Of(sec), name)
      ensures NewlyDisabled(before1.Of(sec), after1.Of(sec), name) == NewlyDisabled(before2.Of(sec), after2.Of(sec), name)
      ensures BlockedReported(paths, after1.Of(sec), sec, CorrectedExports) == BlockedReported(paths, after2.Of(sec), sec, CorrectedExports)
    {
      ResolvedAgree(before1.Of(sec), before2.Of(sec), config, catalog(sec), load, sec);
      ResolvedAgree(after1.Of(sec), after2.Of(sec), saved, catalog(sec), load, sec);
      BlockedItemsAgree(paths, ItemKey, after1.Of(sec), after2.Of(sec), sec);
    }
    DeltaSumsAgree(before1, after1, before2, after2, name, paths, ArtifactSections);
  }

  /**
   * The delta is reported for a single collection only; it is the one between
   * the effective states of the loaded document `config` and of the saved one,
   * and it points in the direction of the toggle.
   */
  ghost predicate DeltaReported(t: Toggled, req: ToggleRequest, config: JsValue, catalog: Section -> seq<string>,
                                load: string -> Option<seq<string>>)
  {
    && (t.delta.Some? <==> req.section == Collections && req.itemName != "all")
    && (t.delta.Some? ==> exists before: EffectiveStates, after: EffectiveStates ::
          && AllResolved(before, BaseEntries(config), catalog, load)
          && AllResolved(after, BaseEntries(t.saved), catalog, load)
          && t.delta.value == CollectionDelta(before, after, req.itemName, t.newState, load(req.itemName)))
    && (t.delta.Some? && t.newState ==> t.delta.value.newlyDisabled == 0)
    && (t.delta.Some? && !t.newState ==> t.delta.value.newlyEnabled == 0 && t.delta.value.blocked == 0)
  }

  /** Edits the section copy as the command asks, or gives the error for an `all` without a state or an unknown item. */
  method EditSection(section: Entries, req: ToggleRequest, items: seq<string>) returns (r: Result<(Entries, bool), string>)
    ensures req.itemName == "all" && req.desired.None? ==> r == Err(StateRequiredForAll)
    ensures req.itemName != "all" && req.itemName !in items
      ==> r == Err(UnknownItemMessage(req.section, req.itemName, FindClosestMatch(req.itemName, items)))
    ensures r.Ok? <==> if req.itemName == "all" then req.desired.Some? else req.itemName in items
    ensures r.Ok? ==> r.value.1 == (if req.desired.Some? then req.desired.value else !Truthy(Get(section, req.itemName)))
    ensures r.Ok? ==> forall n :: Get(r.value.0, n) == if IsToggled(req.itemName, items, n) then JsBool(r.value.1) else Get(section, n)
    ensures r.Ok? && AllBool(section) ==> AllBool(r.value.0)
    ensures r.Ok? && req.itemName != "all" ==> r.value.0 == Put(section, req.itemName, JsBool(r.value.1))
  {
    var sectionState := section;
    var newState: bool;
    if req.itemName == "all" {
      if req.desired.None? {
        return Err(StateRequiredForAll);
      }
      sectionState := ToggleAll(sectionState, items, req.desired.value);
      newState := req.desired.value;
    } else {
      if req.itemName !in items {
        var suggestion := FindClosestMatch(req.itemName, items);
        return Err(UnknownItemMessage(req.section, req.itemName, suggestion));
      }
      var currentState := Truthy(Get(sectionState, req.itemName));
      newState := if req.desired.None? then !currentState else req.desired.value;
      if AllBool(sectionState) {
        PutAllBool(sectionState, req.itemName, newState);
      }
      sectionState := Put(sectionState, req.itemName, JsBool(newState));
    }
    r := Ok((sectionState, newState));
  }

  /**
   * handleToggleCommand. `readConfig(path)` stands for reading and parsing the
   * file (or the error doing so raises), `catalog` for getAllAvailableItems,
   * `load` for reading a collection's item paths, and `footprint` for the
   * character count calculateSectionFootprint measures on disk.
   */
  method HandleToggleCommand(rawArgs: seq<string>, catalog: Section -> seq<string>,
                             readConfig: string -> Result<JsValue, string>,
                             load: string -> Option<seq<string>>, footprint: (Section, Entries) -> int)
    returns (r: Result<Toggled, string>)
    ensures ParseToggleArgs(rawArgs).Err? ==> r == Err(ParseToggleArgs(rawArgs).error)
    ensures ParseToggleArgs(rawArgs).Ok? && catalog(ParseToggleArgs(rawArgs).value.section) == [] ==>
      r == Err(NothingToToggle(ParseToggleArgs(rawArgs).value.section))
    ensures ParseToggleArgs(rawArgs).Ok? && catalog(ParseToggleArgs(rawArgs).value.section) != [] ==>
      var req := ParseToggleArgs(rawArgs).value;
      && (readConfig(req.configPath).Err? ==> r == Err(readConfig(req.configPath).error))
      && (readConfig(req.configPath).Ok? && req.itemName == "all" && req.desired.None? ==> r == Err(StateRequiredForAll))
      && (readConfig(req.configPath).Ok? && req.itemName != "all" && req.itemName !in catalog(req.section) ==>
            r == Err(UnknownItemMessage(req.section, req.itemName, FindClosestMatch(req.itemName, catalog(req.section)))))
      && (r.Ok? <==> readConfig(req.configPath).Ok?
                     && if req.itemName == "all" then req.desired.Some? else req.itemName in catalog(req.section))
    ensures r.Ok? ==>
      var req := ParseToggleArgs(rawArgs).value;
      && ParseToggleArgs(rawArgs).Ok? && readConfig(req.configPath).Ok?
      && ToggleApplied(r.value, req, catalog(req.section), EnsureConfigStructure(readConfig(req.configPath).value))
      && DeltaReported(r.value, req, EnsureConfigStructure(readConfig(req.configPath).value), catalog, load)
      && r.value.warning == MaybeWarnAboutContext(req.section, footprint(req.section, SectionEntries(r.value.saved, req.section)))
  {
    var extracted := ExtractConfigOption(rawArgs);
    if extracted.Err? {
      return Err(extracted.error);
    }
    var (args, configPath) := extracted.value;
    if |args| < 2 {
      return Err(UsageMessage);
    }
    var validated := ValidateSectionType(args[0]);
    if validated.Err? {
      return Err(validated.error);
    }
    var section := validated.value;
    var itemName := args[1];
    var desiredState: Option<bool> := None;
    if |args| > 2 && args[2] != "" {
      var parsed := ParseStateToken(args[2]);
      if parsed.Err? {
        return Err(parsed.error);
      }
      desiredState := Some(parsed.value);
    }
    var req := ToggleRequest(configPath, section, itemName, desiredState);
    assert ParseToggleArgs(rawArgs) == Ok(req);

    var availableItems := catalog(section);
    if |availableItems| == 0 {
      return Err(NothingToToggle(section));
    }
    var loaded := readConfig(configPath);
    if loaded.Err? {
      return Err(loaded.error);
    }
    var config := EnsureConfigStructure(loaded.value);
    var saved := SaveToggle(loaded.value, req, availableItems);
    if saved.Err? {
      return Err(saved.error);
    }
    var (document, newState) := saved.value;
    var t := ReportToggle(req, config, document, newState, availableItems, catalog, load, footprint);
    r := Ok(t);
  }

  /**
   * Edits a copy of the loaded document's section and runs the document through
   * ensureConfigStructure, as it is saved. A single-item toggle replaces the
   * one entry of the section and nothing else.
   */
  method SaveToggle(document: JsValue, req: ToggleRequest, items: seq<string>) returns (r: Result<(JsValue, bool), string>)
    ensures req.itemName == "all" && req.desired.None? ==> r == Err(StateRequiredForAll)
    ensures req.itemName != "all" && req.itemName !in items
      ==> r == Err(UnknownItemMessage(req.section, req.itemName, FindClosestMatch(req.itemName, items)))
    ensures r.Ok? <==> if req.itemName == "all" then req.desired.Some? else req.itemName in items
    ensures r.Ok? ==> SavedAsToggled(r.value.0, r.value.1, req, items, EnsureConfigStructure(document))
    ensures r.Ok? ==> r.value.0.JsObject? && Get(r.value.0.entries, SectionKey(req.section)).JsObject?
    ensures r.Ok? && req.itemName != "all" ==>
      var config := EnsureConfigStructure(document);
      r.value.0 == JsObject(Put(BaseEntries(config), SectionKey(req.section),
                                JsObject(Put(SectionEntries(config, req.section), req.itemName, JsBool(r.value.1)))))
  {
    var section := req.section;
    var config := EnsureConfigStructure(document);
    var current := SectionEntries(config, section);
    LoadedSectionAllBool(document, section);
    var edited := EditSection(current, req, items);
    if edited.Err? {
      r := Err(edited.error);
    } else {
      var (sectionState, newState) := edited.value;
      var sanitizedConfig := WriteBack(document, req, items, sectionState, newState);
      r := Ok((sanitizedConfig, newState));
    }
  }

  /** Every entry of a section of a sanitised document is a boolean. */
  lemma LoadedSectionAllBool(document: JsValue, s: Section)
    ensures AllBool(SectionEntries(EnsureConfigStructure(document), s))
  {
    EnsureConfigStructureSections(document, s);
    SanitizedSectionAllBool(EnsureConfigStructure(document), Get(BaseEntries(document), SectionKey(s)), s);
  }

  lemma SanitizedSectionAllBool(config: JsValue, raw: JsValue, s: Section)
    requires config.JsObject? && Get(config.entries, SectionKey(s)) == SanitizedSection(raw)
    ensures AllBool(SectionEntries(config, s))
  {
  }

  /** Writes the edited section into a copy of the sanitised document and sanitises the copy again. */
  method WriteBack(document: JsValue, req: ToggleRequest, items: seq<string>, sectionState: Entries, newState: bool)
    returns (saved: JsValue)
    requires var before := SectionEntries(EnsureConfigStructure(document), req.section);
      && AllBool(sectionState)
      && newState == (if req.desired.Some? then req.desired.value else !Truthy(Get(before, req.itemName)))
      && (forall n :: Get(sectionState, n) == if IsToggled(req.itemName, items, n) then JsBool(newState) else Get(before, n))
    ensures var config := EnsureConfigStructure(document);
      && saved == JsObject(Put(BaseEntries(config), SectionKey(req.section), JsObject(sectionState)))
      && SavedAsToggled(saved, newState, req, items, config)
      && Get(saved.entries, SectionKey(req.section)).JsObject?
  {
    var config := EnsureConfigStructure(document);
    var configCopy := Put(config.entries, SectionKey(req.section), JsObject(sectionState));
    saved := EnsureConfigStructure(JsObject(configCopy));
    ToggleSaved(document, req, items, sectionState, newState);
  }

  /** The edited section, written back and sanitised again, is what a toggle saves. */
  lemma ToggleSaved(document: JsValue, req: ToggleRequest, items: seq<string>, sectionState: Entries, newState: bool)
    requires var before := SectionEntries(EnsureConfigStructure(document), req.section);
      && AllBool(sectionState)
      && newState == (if req.desired.Some? then req.desired.value else !Truthy(Get(before, req.itemName)))
      && (forall n :: Get(sectionState, n) == if IsToggled(req.itemName, items, n) then JsBool(newState) else Get(before, n))
    ensures var config := EnsureConfigStructure(document);
      var configCopy := Put(config.entries, SectionKey(req.section), JsObject(sectionState));
      var saved := EnsureConfigStructure(JsObject(configCopy));
      && saved == JsObject(configCopy)
      && SavedAsToggled(saved, newState, req, items, config)
      && Get(saved.entries, SectionKey(req.section)).JsObject?
  {
    ReplaceSectionInShape(document, req.section, sectionState);
    SavedSection(EnsureConfigStructure(document), req, items, sectionState, newState);
  }

  /** Writing the edited section back into the document is what a toggle saves. */
  lemma SavedSection(config: JsValue, req: ToggleRequest, items: seq<string>, sectionState: Entries, newState: bool)
    requires config.JsObject?
    requires var before := SectionEntries(config, req.section);
      && newState == (if req.desired.Some? then req.desired.value else !Truthy(Get(before, req.itemName)))
      && forall n :: Get(sectionState, n) == if IsToggled(req.itemName, items, n) then JsBool(newState) else Get(before, n)
    ensures var saved := JsObject(Put(config.entries, SectionKey(req.section), JsObject(sectionState)));
      && SavedAsToggled(saved, newState, req, items, config)
      && Get(saved.entries, SectionKey(req.section)).JsObject?
  {
    var saved := JsObject(Put(config.entries, SectionKey(req.section), JsObject(sectionState)));
    assert SectionEntries(saved, req.section) == sectionState;
  }

  /**
   * The part of handleToggleCommand after the document is saved: count the
   * section's enabled entries, warn about the context footprint, and for a
   * single collection compare the effective states of the saved and loaded
   * documents.
   */
  method ReportToggle(req: ToggleRequest, config: JsValue, saved: JsValue, newState: bool, items: seq<string>,
                      catalog: Section -> seq<string>, load: string -> Option<seq<string>>,
                      footprint: (Section, Entries) -> int)
    returns (t: Toggled)
    requires SavedAsToggled(saved, newState, req, items, config)
    requires Get(BaseEntries(saved), SectionKey(req.section)).JsObject?
    requires req.itemName != "all" ==>
      saved == JsObject(Put(BaseEntries(config), SectionKey(req.section),
                            JsObject(Put(SectionEntries(config, req.section), req.itemName, JsBool(newState)))))
    ensures ToggleApplied(t, req, items, config)
    ensures DeltaReported(t, req, config, catalog, load)
    ensures t.warning == MaybeWarnAboutContext(req.section, footprint(req.section, SectionEntries(t.saved, req.section)))
  {
    var section := req.section;
    var counted := CountEnabledItems(Get(saved.entries, SectionKey(section)));
    var enabledCount := if counted.Ok? then counted.value else 0;
    assert enabledCount == CountTruthy(SectionEntries(saved, section));
    var warning := MaybeWarnAboutContext(section, footprint(section, SectionEntries(saved, section)));

    var delta: Option<Delta> := None;
    if section == Collections && req.itemName != "all" {
      var d, before, after := CollectionDeltaAfterToggle(BaseEntries(config), saved.entries, req.itemName, newState, catalog, load);
      delta := Some(d);
      assert AllResolved(after, BaseEntries(Toggled(req.configPath, saved, newState, 0, 0, warning, delta).saved), catalog, load);
    }
    t := Toggled(req.configPath, saved, newState, enabledCount, |items|, warning, delta);
  }

  /**
   * The delta step of handleToggleCommand for a single collection: the effective
   * states of the saved document against those of the loaded one. The source
   * computes the states of the loaded document before editing it; the
   * computation reads nothing the edit changes, so it is done here.
   */
  method CollectionDeltaAfterToggle(config: Entries, saved: Entries, name: string, state: bool,
                                    catalog: Section -> seq<string>, load: string -> Option<seq<string>>)
    returns (delta: Delta, ghost before: EffectiveStates, ghost after: EffectiveStates)
    requires saved == Put(config, "collections", JsObject(Put(CollectionEntries(config), name, JsBool(state))))
    ensures AllResolved(before, config, catalog, load) && AllResolved(after, saved, catalog, load)
    ensures delta == CollectionDelta(before, after, name, state, load(name))
    ensures state ==> delta.newlyDisabled == 0
    ensures !state ==> delta.newlyEnabled == 0 && delta.blocked == 0
  {
    var beforeEffective := ComputeEffectiveItemStates(config, catalog, load);
    var afterEffective := ComputeEffectiveItemStates(saved, catalog, load);
    before, after := beforeEffective, afterEffective;
    var shown := ShowCollectionDelta(Some(beforeEffective), Some(afterEffective), name, state, load(name), CorrectedExports);
    delta := shown.value;
    CollectionToggleDirection(config, saved, before, afterEffective, CollectionEntries(config), name, state, catalog, load);
    if state {
      NoneNewlyDisabled(before, afterEffective, name, ArtifactSections);
    } else {
      NoneNewlyEnabled(before, afterEffective, name, ArtifactSections);
    }
  }

  /**
   * Toggling one collection in place moves every artifact item's enabled state
   * in the toggle's direction only: enabling a collection never disables an
   * item, and disabling one never enables an item.
   */
  lemma CollectionToggleDirection(config: Entries, edited: Entries, before: EffectiveStates, after: EffectiveStates,
                                  collections: Entries, name: string, state: bool,
                                  catalog: Section -> seq<string>, load: string -> Option<seq<string>>)
    requires collections == CollectionEntries(config)
    requires edited == Put(config, "collections", JsObject(Put(collections, name, JsBool(state))))
    requires forall sec: ArtifactSection :: SectionResolved(before.Of(sec), config, catalog(sec), load, sec)
    requires forall sec: ArtifactSection :: SectionResolved(after.Of(sec), edited, catalog(sec), load, sec)
    ensures state ==> forall sec: ArtifactSection :: before.Of(sec).enabled <= after.Of(sec).enabled
    ensures !state ==> forall sec: ArtifactSection :: after.Of(sec).enabled <= before.Of(sec).enabled
  {
    assert CollectionEntries(edited) == Put(collections, name, JsBool(state));
    PutCovers(collections, name, state);
    forall sec: ArtifactSection, n: string ensures ExplicitFlag(edited, sec, n) == ExplicitFlag(config, sec, n) {
      assert SectionKey(sec) != "collections";
    }
    forall sec: ArtifactSection
      ensures state ==> before.Of(sec).enabled <= after.Of(sec).enabled
      ensures !state ==> after.Of(sec).enabled <= before.Of(sec).enabled
    {
      if state {
        EnabledMonotone(before.Of(sec), after.Of(sec), config, edited, catalog(sec), load, sec);
      } else {
        EnabledMonotone(after.Of(sec), before.Of(sec), edited, config, catalog(sec), load, sec);
      }
    }
  }
}
