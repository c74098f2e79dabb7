/**
 * The configuration document of the awesome-copilot command-line tool
 * (config-manager.js): the sanitisers that put a parsed YAML document into
 * shape, the header/body split of the configuration file, key sorting, and the
 * resolution of every catalog item to an effective on/off state with its reason.
 *
 * The file system is injected: `catalog(section)` lists the items of a section
 * (getAllAvailableItems) and `load(name)` gives the item paths of the collection
 * file `collections/<name>.collection.yml`, or None when the file is missing,
 * cannot be parsed or has no item list.
 */
module ConfigManager {
  import opened Wrappers
  import opened Text
  import opened Sorting

  /**
   * A JavaScript value as a parsed configuration document holds it. An object is
   * its entry list in key order; JavaScript keeps keys distinct, and `Get` reads
   * the first entry with the key.
   */
  datatype JsValue =
    | JsUndefined
    | JsNull
    | JsBool(b: bool)
    | JsNumber(n: real)
    | JsString(s: string)
    | JsObject(entries: seq<(string, JsValue)>)

  type Entries = seq<(string, JsValue)>

  /** JavaScript `Boolean(v)`. */
  predicate Truthy(v: JsValue)
  {
    match v
    case JsUndefined => false
    case JsNull => false
    case JsBool(b) => b
    case JsNumber(n) => n != 0.0
    case JsString(s) => s != ""
    case JsObject(_) => true
  }

  function KeysOf(e: Entries): seq<string>
  {
    if e == [] then [] else [e[0].0] + KeysOf(e[1..])
  }

  /** Property read `obj[k]`: undefined when the key is absent. */
  function Get(e: Entries, k: string): (v: JsValue)
    ensures k !in KeysOf(e) ==> v == JsUndefined
  {
    if e == [] then JsUndefined else if e[0].0 == k then e[0].1 else Get(e[1..], k)
  }

  /** Property write `obj[k] = v`: an existing key keeps its place, a new key goes last. */
  function Put(e: Entries, k: string, v: JsValue): (r: Entries)
    ensures Get(r, k) == v
    ensures forall k' :: k' != k ==> Get(r, k') == Get(e, k')
    ensures KeysOf(r) == if k in KeysOf(e) then KeysOf(e) else KeysOf(e) + [k]
  {
    if e == [] then [(k, v)]
    else if e[0].0 == k then [(k, v)] + e[1..]
    else [e[0]] + Put(e[1..], k, v)
  }

  /** Writing back the value a present key already has changes nothing. */
  lemma {:induction false} PutSame(e: Entries, k: string)
    requires k in KeysOf(e)
    ensures Put(e, k, Get(e, k)) == e
  {
    if e[0].0 != k {
      PutSame(e[1..], k);
      assert [e[0]] + e[1..] == e;
    } else {
      assert [(k, e[0].1)] + e[1..] == e;
    }
  }

  // ---------------------------------------------------------------------------
  // Sections

  datatype Section = Prompts | Instructions | ChatModes | Collections

  /** The three sections whose items are files; collections only group them. */
  type ArtifactSection = s: Section | s != Collections witness Prompts

  /** CONFIG_SECTIONS, in declaration order. */
  const ConfigSections: seq<Section> := [Prompts, Instructions, ChatModes, Collections]

  function SectionKey(s: Section): string
  {
    match s
    case Prompts => "prompts"
    case Instructions => "instructions"
    case ChatModes => "chatmodes"
    case Collections => "collections"
  }

  /** File extension of a section's items (SECTION_METADATA). */
  function Ext(s: Section): string
  {
    match s
    case Prompts => ".prompt.md"
    case Instructions => ".instructions.md"
    case ChatModes => ".chatmode.md"
    case Collections => ".collection.yml"
  }

  /** The keys that ensureConfigStructure rewrites. */
  predicate IsManagedKey(k: string)
  {
    k == "version" || k == "project" || k == "prompts" || k == "instructions" || k == "chatmodes" || k == "collections"
  }

  // ---------------------------------------------------------------------------
  // Sanitisers

  /**
   * toBoolean: a boolean is kept, a string reading "true" or "false" after trimming
   * and lower-casing becomes that boolean, anything else follows JavaScript truthiness.
   */
  function ToBoolean(v: JsValue): (r: bool)
    ensures v.JsString? ==> (!r <==> v.s == "" || LowerAscii(JsTrim(v.s)) == "false")
    ensures !v.JsString? ==> (r <==> Truthy(v))
  {
    match v
    case JsBool(b) => b
    case JsString(s) =>
      var normalized := LowerAscii(JsTrim(s));
      if normalized == "true" then true
      else if normalized == "false" then false
      else Truthy(v)
    case _ => Truthy(v)
  }

  /** The entries of a section after sanitizeSection: the same keys, each value made boolean. */
  function SanitizedEntries(e: Entries): Entries
  {
    seq(|e|, i requires 0 <= i < |e| => (e[i].0, JsBool(ToBoolean(e[i].1))))
  }

  /** sanitizeSection: a missing or non-object section becomes the empty object. */
  function SanitizedSection(v: JsValue): JsValue
  {
    if v.JsObject? then JsObject(SanitizedEntries(v.entries)) else JsObject([])
  }

  /** A sanitised section keeps every key and maps it to the boolean reading of its old value. */
  lemma {:induction false} SanitizedEntriesMeaning(e: Entries, k: string)
    ensures KeysOf(SanitizedEntries(e)) == KeysOf(e)
    ensures Get(SanitizedEntries(e), k) == if k in KeysOf(e) then JsBool(ToBoolean(Get(e, k))) else JsUndefined
  {
    if e != [] {
      SanitizedEntriesMeaning(e[1..], k);
      assert SanitizedEntries(e)[1..] == SanitizedEntries(e[1..]);
    }
  }

  /** Sanitising a sanitised section changes nothing. */
  lemma SanitizedSectionIdempotent(v: JsValue)
    ensures SanitizedSection(SanitizedSection(v)) == SanitizedSection(v)
  {
  }

  /** sanitizeSection, as the source writes it: a loop copying each entry with its boolean value. */
  method SanitizeSection(section: JsValue) returns (r: JsValue)
    ensures r == SanitizedSection(section)
  {
    if !section.JsObject? {
      return JsObject([]);
    }
    var e := section.entries;
    var sanitized: Entries := [];
    for i := 0 to |e|
      invariant |sanitized| == i
      invariant forall j :: 0 <= j < i ==> sanitized[j] == (e[j].0, JsBool(ToBoolean(e[j].1)))
    {
      sanitized := sanitized + [(e[i].0, JsBool(ToBoolean(e[i].1)))];
    }
    r := JsObject(sanitized);
  }

  /** The top-level entries ensureConfigStructure starts from: a copy of an object, else none. */
  function BaseEntries(config: JsValue): Entries
  {
    if config.JsObject? then config.entries else []
  }

  function ProjectEntries(v: JsValue): Entries
  {
    if v.JsObject? then v.entries else []
  }

  /** One step of ensureConfigStructure: replace the value under `k` by `v`, touching nothing else. */
  function Set(e: Entries, k: string, v: JsValue): (r: Entries)
    ensures Get(r, k) == v
    ensures forall k' :: k' != k ==> Get(r, k') == Get(e, k')
    ensures KeysOf(e) <= KeysOf(r) && k in KeysOf(r)
  {
    Put(e, k, v)
  }

  /** The project object with its output directory defaulted. */
  function FilledProject(project: Entries): (r: Entries)
    ensures Get(r, "output_directory")
      == (if Get(project, "output_directory") == JsUndefined then JsString(".awesome-copilot") else Get(project, "output_directory"))
    ensures forall k :: k != "output_directory" ==> Get(r, k) == Get(project, k)
  {
    if Get(project, "output_directory") == JsUndefined
    then Set(project, "output_directory", JsString(".awesome-copilot"))
    else project
  }

  /** The top-level entries after the version has been defaulted. */
  function WithVersion(base: Entries): (r: Entries)
    ensures Get(r, "version") == if Truthy(Get(base, "version")) then Get(base, "version") else JsString("1.0")
    ensures forall k :: k != "version" ==> Get(r, k) == Get(base, k)
    ensures KeysOf(base) <= KeysOf(r) && "version" in KeysOf(r)
  {
    if Truthy(Get(base, "version")) then
      assert Get(base, "version") != JsUndefined;
      base
    else Set(base, "version", JsString("1.0"))
  }

  /** Replaces a section by its sanitised form. */
  function WithSection(e: Entries, s: Section): (r: Entries)
    ensures Get(r, SectionKey(s)) == SanitizedSection(Get(e, SectionKey(s)))
    ensures forall k :: k != SectionKey(s) ==> Get(r, k) == Get(e, k)
    ensures KeysOf(e) <= KeysOf(r) && SectionKey(s) in KeysOf(r)
  {
    Set(e, SectionKey(s), SanitizedSection(Get(e, SectionKey(s))))
  }

  /** The project and section steps of ensureConfigStructure, applied to the versioned entries. */
  function StructureSteps(withVersion: Entries): Entries
  {
    var e0 := Set(withVersion, "project", JsObject(FilledProject(ProjectEntries(Get(withVersion, "project")))));
    WithSection(WithSection(WithSection(WithSection(e0, Prompts), Instructions), ChatModes), Collections)
  }

  /**
   * ensureConfigStructure: default the version and the project's output
   * directory, and make every configuration section a name-to-boolean object.
   * What this keeps and changes is stated by the lemmas that follow.
   */
  function EnsureConfigStructure(config: JsValue): (r: JsValue)
    ensures r.JsObject?
  {
    JsObject(StructureSteps(WithVersion(BaseEntries(config))))
  }

  /** The steps after the version leave every key but the project and the sections alone. */
  lemma StructureStepsKeep(e: Entries, k: string)
    requires k != "project" && k !in {"prompts", "instructions", "chatmodes", "collections"}
    ensures Get(StructureSteps(e), k) == Get(e, k)
  {
    var e0 := Set(e, "project", JsObject(FilledProject(ProjectEntries(Get(e, "project")))));
    assert Get(e0, k) == Get(e, k);
    StructureStepsAfterProject(e0, k);
  }

  /** The steps after the version give the project its output directory. */
  lemma StructureStepsProject(e: Entries)
    ensures Get(StructureSteps(e), "project") == JsObject(FilledProject(ProjectEntries(Get(e, "project"))))
  {
    var e0 := Set(e, "project", JsObject(FilledProject(ProjectEntries(Get(e, "project")))));
    assert Get(e0, "project") == JsObject(FilledProject(ProjectEntries(Get(e, "project"))));
    StructureStepsAfterProject(e0, "project");
  }

  /** The section steps leave every key but the sections' alone. */
  lemma StructureStepsAfterProject(e0: Entries, k: string)
    requires k !in {"prompts", "instructions", "chatmodes", "collections"}
    ensures Get(WithSection(WithSection(WithSection(WithSection(e0, Prompts), Instructions), ChatModes), Collections), k)
      == Get(e0, k)
  {
    var e1 := WithSection(e0, Prompts);
    var e2 := WithSection(e1, Instructions);
    var e3 := WithSection(e2, ChatModes);
    WithOtherKey(e0, Prompts, k);
    WithOtherKey(e1, Instructions, k);
    WithOtherKey(e2, ChatModes, k);
    WithOtherKey(e3, Collections, k);
  }

  /** A section step leaves every other key alone. */
  lemma WithOtherKey(e: Entries, t: Section, k: string)
    requires k != SectionKey(t)
    ensures Get(WithSection(e, t), k) == Get(e, k)
  {
  }

  /** The steps after the version keep the key order and add the project and every section. */
  lemma StructureStepsKeys(e: Entries)
    ensures KeysOf(e) <= KeysOf(StructureSteps(e))
    ensures "project" in KeysOf(StructureSteps(e))
    ensures forall s :: SectionKey(s) in KeysOf(StructureSteps(e))
  {
    var e0 := Set(e, "project", JsObject(FilledProject(ProjectEntries(Get(e, "project")))));
    var e1 := WithSection(e0, Prompts);
    var e2 := WithSection(e1, Instructions);
    var e3 := WithSection(e2, ChatModes);
    var e4 := WithSection(e3, Collections);
    assert e4 == StructureSteps(e);
    var k0, k1, k2, k3, k4 := KeysOf(e0), KeysOf(e1), KeysOf(e2), KeysOf(e3), KeysOf(e4);
    PrefixTrans(k2, k3, k4);
    PrefixTrans(k1, k2, k4);
    PrefixTrans(k0, k1, k4);
    PrefixTrans(KeysOf(e), k0, k4);
    PrefixHas("project", k0, k4);
    forall s ensures SectionKey(s) in k4 {
      match s
      case Prompts => PrefixHas(SectionKey(s), k1, k4);
      case Instructions => PrefixHas(SectionKey(s), k2, k4);
      case ChatModes => PrefixHas(SectionKey(s), k3, k4);
      case Collections =>
    }
  }

  /** Being a prefix is transitive. */
  lemma PrefixTrans(a: seq<string>, b: seq<string>, c: seq<string>)
    requires a <= b && b <= c
    ensures a <= c
  {
  }

  /** What a prefix holds, the longer list holds. */
  lemma PrefixHas(x: string, a: seq<string>, b: seq<string>)
    requires x in a && a <= b
    ensures x in b
  {
    var i :| 0 <= i < |a| && a[i] == x;
    assert b[i] == x;
  }

  /** Distinct sections have distinct keys, and none of them is the project's. */
  lemma SectionKeyDistinct(s: Section, t: Section)
    ensures SectionKey(s) == SectionKey(t) <==> s == t
    ensures SectionKey(s) != "project"
  {
    if s != t {
      assert SectionKey(s)[..2] != SectionKey(t)[..2] || SectionKey(s)[2] != SectionKey(t)[2];
    }
  }

  /** A section step on another section leaves this one alone. */
  lemma WithOtherSection(e: Entries, t: Section, s: Section)
    requires s != t
    ensures Get(WithSection(e, t), SectionKey(s)) == Get(e, SectionKey(s))
  {
    SectionKeyDistinct(s, t);
    WithOtherKey(e, t, SectionKey(s));
  }

  /** The steps after the version replace each section by its sanitised form. */
  lemma StructureStepsSection(e: Entries, s: Section)
    ensures Get(StructureSteps(e), SectionKey(s)) == SanitizedSection(Get(e, SectionKey(s)))
  {
    var e0 := Set(e, "project", JsObject(FilledProject(ProjectEntries(Get(e, "project")))));
    var e1 := WithSection(e0, Prompts);
    var e2 := WithSection(e1, Instructions);
    var e3 := WithSection(e2, ChatModes);
    var e4 := WithSection(e3, Collections);
    assert e4 == StructureSteps(e);
    SectionKeyDistinct(s, s);
    assert Get(e0, SectionKey(s)) == Get(e, SectionKey(s));
    if s != Prompts { WithOtherSection(e0, Prompts, s); }
    if s != Instructions { WithOtherSection(e1, Instructions, s); }
    if s != ChatModes { WithOtherSection(e2, ChatModes, s); }
    if s != Collections { WithOtherSection(e3, Collections, s); }
  }

  /** The version is kept when truthy and defaults to "1.0"; the project gets an output directory. */
  lemma EnsureConfigStructureDefaults(config: JsValue)
    ensures var base := BaseEntries(config);
      Get(EnsureConfigStructure(config).entries, "version")
      == if Truthy(Get(base, "version")) then Get(base, "version") else JsString("1.0")
    ensures Get(EnsureConfigStructure(config).entries, "project")
      == JsObject(FilledProject(ProjectEntries(Get(BaseEntries(config), "project"))))
  {
    StructureStepsKeep(WithVersion(BaseEntries(config)), "version");
    StructureStepsProject(WithVersion(BaseEntries(config)));
  }

  /** Every configuration section, present or not, comes out as its sanitised object. */
  lemma EnsureConfigStructureSections(config: JsValue, s: Section)
    ensures Get(EnsureConfigStructure(config).entries, SectionKey(s))
      == SanitizedSection(Get(BaseEntries(config), SectionKey(s)))
  {
    StructureStepsSection(WithVersion(BaseEntries(config)), s);
  }

  /** Any key ensureConfigStructure does not manage is carried over unchanged. */
  lemma EnsureConfigStructureKeepsOthers(config: JsValue, k: string)
    requires !IsManagedKey(k)
    ensures Get(EnsureConfigStructure(config).entries, k) == Get(BaseEntries(config), k)
  {
    StructureStepsKeep(WithVersion(BaseEntries(config)), k);
  }

  /** Existing keys keep their order; the managed keys are all present afterwards. */
  lemma EnsureConfigStructureKeys(config: JsValue)
    ensures KeysOf(BaseEntries(config)) <= KeysOf(EnsureConfigStructure(config).entries)
    ensures "version" in KeysOf(EnsureConfigStructure(config).entries)
    ensures "project" in KeysOf(EnsureConfigStructure(config).entries)
    ensures forall s :: SectionKey(s) in KeysOf(EnsureConfigStructure(config).entries)
  {
    var v := WithVersion(BaseEntries(config));
    StructureStepsKeys(v);
    assert KeysOf(BaseEntries(config)) <= KeysOf(v) <= KeysOf(StructureSteps(v));
  }

  /** A section step on a section that is already sanitised leaves the entries as they are. */
  lemma WithSectionSanitized(e: Entries, s: Section, original: JsValue)
    requires Get(e, SectionKey(s)) == SanitizedSection(original)
    requires SectionKey(s) in KeysOf(e)
    ensures WithSection(e, s) == e
  {
    SanitizedSectionIdempotent(original);
    PutSame(e, SectionKey(s));
  }

  /** Entries already in the shape ensureConfigStructure produces go through it unchanged. */
  lemma StructureStepsFixed(e: Entries, project: Entries, sections: Section -> JsValue)
    requires Truthy(Get(e, "version"))
    requires Get(e, "project") == JsObject(FilledProject(project))
    requires forall s :: Get(e, SectionKey(s)) == SanitizedSection(sections(s))
    requires "project" in KeysOf(e) && forall s :: SectionKey(s) in KeysOf(e)
    ensures WithVersion(e) == e
    ensures StructureSteps(e) == e
  {
    assert FilledProject(FilledProject(project)) == FilledProject(project) by {
      if Get(project, "output_directory") == JsUndefined {
        PutSame(Put(project, "output_directory", JsString(".awesome-copilot")), "output_directory");
      }
    }
    PutSame(e, "project");
    var e0 := Set(e, "project", JsObject(FilledProject(ProjectEntries(Get(e, "project")))));
    assert e0 == e;
    WithSectionSanitized(e, Prompts, sections(Prompts));
    WithSectionSanitized(e, Instructions, sections(Instructions));
    WithSectionSanitized(e, ChatModes, sections(ChatModes));
    WithSectionSanitized(e, Collections, sections(Collections));
  }

  /** ensureConfigStructure is idempotent: a document already in shape comes back unchanged. */
  lemma EnsureConfigStructureIdempotent(config: JsValue)
    ensures EnsureConfigStructure(EnsureConfigStructure(config)) == EnsureConfigStructure(config)
  {
    var r := EnsureConfigStructure(config);
    var base := BaseEntries(config);
    EnsureConfigStructureDefaults(config);
    EnsureConfigStructureKeys(config);
    forall s ensures Get(r.entries, SectionKey(s)) == SanitizedSection(Get(base, SectionKey(s))) {
      EnsureConfigStructureSections(config, s);
    }
    StructureStepsFixed(r.entries, ProjectEntries(Get(base, "project")), SectionsOf(base));
    assert BaseEntries(r) == r.entries;
  }

  /** Every value of the entries is a boolean, as sanitizeSection leaves them. */
  predicate AllBool(e: Entries)
  {
    forall i :: 0 <= i < |e| ==> e[i].1.JsBool?
  }

  /** Sanitising entries that are already booleans changes nothing. */
  lemma SanitizedAllBool(e: Entries)
    requires AllBool(e)
    ensures SanitizedEntries(e) == e
  {
    assert forall i :: 0 <= i < |e| ==> SanitizedEntries(e)[i] == e[i];
  }

  /** Writing a boolean keeps a section boolean-valued. */
  lemma {:induction false} PutAllBool(e: Entries, k: string, b: bool)
    requires AllBool(e)
    ensures AllBool(Put(e, k, JsBool(b)))
  {
    if e != [] && e[0].0 != k {
      PutAllBool(e[1..], k, b);
      assert Put(e, k, JsBool(b)) == [e[0]] + Put(e[1..], k, JsBool(b));
    }
  }

  /** The shape ensureConfigStructure produces: what StructureStepsFixed asks of its entries. */
  ghost predicate InShape(e: Entries, project: Entries, sections: Section -> JsValue)
  {
    && Truthy(Get(e, "version"))
    && Get(e, "project") == JsObject(FilledProject(project))
    && (forall s :: Get(e, SectionKey(s)) == SanitizedSection(sections(s)))
    && "project" in KeysOf(e) && forall s :: SectionKey(s) in KeysOf(e)
  }

  /** The sections of a configuration's entries, as a function of the section. */
  function SectionsOf(base: Entries): Section -> JsValue
  {
    s => Get(base, SectionKey(s))
  }

  /** The version ensureConfigStructure leaves is truthy. */
  lemma EnsureConfigStructureVersionTruthy(x: JsValue)
    ensures Truthy(Get(EnsureConfigStructure(x).entries, "version"))
  {
    EnsureConfigStructureDefaults(x);
  }

  /** Every section comes out as the sanitised form of the input's section. */
  lemma EnsureConfigStructureAllSections(x: JsValue)
    ensures forall s :: Get(EnsureConfigStructure(x).entries, SectionKey(s)) == SanitizedSection(SectionsOf(BaseEntries(x))(s))
  {
    forall s ensures Get(EnsureConfigStructure(x).entries, SectionKey(s)) == SanitizedSection(SectionsOf(BaseEntries(x))(s)) {
      EnsureConfigStructureSections(x, s);
    }
  }

  /** What ensureConfigStructure produces is in the shape it leaves unchanged. */
  lemma EnsureConfigStructureInShape(x: JsValue)
    ensures InShape(EnsureConfigStructure(x).entries, ProjectEntries(Get(BaseEntries(x), "project")), SectionsOf(BaseEntries(x)))
  {
    EnsureConfigStructureVersionTruthy(x);
    EnsureConfigStructureDefaults(x);
    EnsureConfigStructureKeys(x);
    EnsureConfigStructureAllSections(x);
  }

  /** Replacing a section by boolean-valued entries keeps the shape. */
  lemma PutSectionInShape(e: Entries, project: Entries, sections: Section -> JsValue, sec: Section, entries: Entries)
    requires InShape(e, project, sections) && AllBool(entries)
    ensures InShape(Put(e, SectionKey(sec), JsObject(entries)), project,
                    s => if s == sec then JsObject(entries) else sections(s))
  {
    SanitizedAllBool(entries);
  }

  /**
   * Replacing one section of a document that ensureConfigStructure produced by a
   * boolean-valued object gives a document that ensureConfigStructure leaves as it is.
   */
  lemma ReplaceSectionInShape(x: JsValue, sec: Section, entries: Entries)
    requires AllBool(entries)
    ensures var e := Put(EnsureConfigStructure(x).entries, SectionKey(sec), JsObject(entries));
      EnsureConfigStructure(JsObject(e)) == JsObject(e)
  {
    var base := BaseEntries(x);
    var project := ProjectEntries(Get(base, "project"));
    var sections := SectionsOf(base);
    var shaped := EnsureConfigStructure(x).entries;
    EnsureConfigStructureInShape(x);
    var e := Put(shaped, SectionKey(sec), JsObject(entries));
    PutSectionInShape(shaped, project, sections, sec, entries);
    StructureStepsFixed(e, project, s => if s == sec then JsObject(entries) else sections(s));
    assert BaseEntries(JsObject(e)) == e;
  }

  // ---------------------------------------------------------------------------
  // The configuration file: header comments and YAML body

  /** The first character that is not white space, if any. */
  function FirstNonSpace(s: string): Option<char>
  {
    if s == [] then None else if IsJsSpace(s[0]) then FirstNonSpace(s[1..]) else Some(s[0])
  }

  /** A header line is blank or a comment: nothing but white space before an optional '#'. */
  predicate IsHeaderLine(line: string)
  {
    var c := FirstNonSpace(line);
    c.None? || c.value == '#'
  }

  lemma {:induction false} FirstNonSpaceOfTrim(s: string)
    ensures FirstNonSpace(s) == if TrimStart(s, IsJsSpace) == [] then None else Some(TrimStart(s, IsJsSpace)[0])
  {
    if s != [] && IsJsSpace(s[0]) {
      FirstNonSpaceOfTrim(s[1..]);
    }
  }

  /** The header-line test agrees with trimming the line and testing for "" or a leading "#". */
  lemma IsHeaderLineByTrim(line: string)
    ensures IsHeaderLine(line) <==> JsTrim(line) == "" || StartsWith(JsTrim(line), "#")
  {
    FirstNonSpaceOfTrim(line);
    var t := TrimStart(line, IsJsSpace);
    var r := TrimEnd(t, IsJsSpace);
    assert JsTrim(line) == r;
    TrimStartShape(line, IsJsSpace);
    TrimEndShape(t, IsJsSpace);
    if t != [] {
      assert r != [] && r[0] == t[0];
    }
  }

  /** The number of leading header lines. */
  function HeaderCount(lines: seq<string>): (k: nat)
    ensures k <= |lines|
    ensures forall i :: 0 <= i < k ==> IsHeaderLine(lines[i])
    ensures k < |lines| ==> !IsHeaderLine(lines[k])
  {
    if lines == [] then 0
    else if IsHeaderLine(lines[0]) then 1 + HeaderCount(lines[1..])
    else 0
  }

  /**
   * splitHeaderAndBody: the leading run of blank and comment lines is the
   * header, the rest of the file is the body. Header and body put back together
   * with the newline between them give the file.
   */
  method SplitHeaderAndBody(content: string) returns (header: string, body: string)
    ensures var lines := Split(content, '\n');
      var k := HeaderCount(lines);
      content == header + (if 0 < k < |lines| then "\n" else "") + body
    ensures forall line :: line in Split(header, '\n') ==> IsHeaderLine(line)
    ensures body == "" || !IsHeaderLine(Split(body, '\n')[0])
  {
    var lines := Split(content, '\n');
    var headerLines: seq<string> := [];
    var firstBodyIndex := 0;
    var i := 0;
    while i < |lines|
      invariant 0 <= i <= |lines|
      invariant headerLines == lines[..i] && firstBodyIndex == i
      invariant forall j :: 0 <= j < i ==> IsHeaderLine(lines[j])
    {
      if IsHeaderLine(lines[i]) {
        headerLines := headerLines + [lines[i]];
        firstBodyIndex := i + 1;
      } else {
        firstBodyIndex := i;
        break;
      }
      i := i + 1;
    }
    HeaderCountIs(lines, firstBodyIndex);
    header := Join(headerLines, '\n');
    body := Join(lines[firstBodyIndex..], '\n');
    HeaderBodyRejoin(content, firstBodyIndex);
    HeaderLinesAreHeader(content, firstBodyIndex);
    BodyStartsOutsideHeader(content, firstBodyIndex);
  }

  /** The header count is the first index that is not a header line. */
  lemma {:induction false} HeaderCountIs(lines: seq<string>, k: nat)
    requires k <= |lines|
    requires forall j :: 0 <= j < k ==> IsHeaderLine(lines[j])
    requires k < |lines| ==> !IsHeaderLine(lines[k])
    ensures HeaderCount(lines) == k
  {
    if k > 0 {
      HeaderCountIs(lines[1..], k - 1);
    }
  }

  /** Header and body, with the newline between them when both are there, give back the file. */
  lemma HeaderBodyRejoin(content: string, k: nat)
    requires k <= |Split(content, '\n')|
    ensures var lines := Split(content, '\n');
      content == Join(lines[..k], '\n') + (if 0 < k < |lines| then "\n" else "") + Join(lines[k..], '\n')
  {
    var lines := Split(content, '\n');
    JoinSplit(content, '\n');
    assert lines[..k] + lines[k..] == lines;
    if 0 < k < |lines| {
      JoinAppend(lines[..k], lines[k..], '\n');
    } else if k == 0 {
      assert lines[k..] == lines;
    } else {
      assert lines[..k] == lines;
    }
  }

  /** Every line of the header is a header line. */
  lemma HeaderLinesAreHeader(content: string, k: nat)
    requires k == HeaderCount(Split(content, '\n'))
    ensures forall line :: line in Split(Join(Split(content, '\n')[..k], '\n'), '\n') ==> IsHeaderLine(line)
  {
    var lines := Split(content, '\n');
    if k == 0 {
      assert Split("", '\n') == [""];
      assert FirstNonSpace("") == None;
    } else {
      SplitJoin(lines[..k], '\n');
      assert forall line :: line in lines[..k] ==> IsHeaderLine(line);
    }
  }

  /** The body is empty or starts with a line that is not a header line. */
  lemma BodyStartsOutsideHeader(content: string, k: nat)
    requires k == HeaderCount(Split(content, '\n'))
    ensures var body := Join(Split(content, '\n')[k..], '\n');
      body == "" || !IsHeaderLine(Split(body, '\n')[0])
  {
    var lines := Split(content, '\n');
    if k < |lines| {
      SplitJoin(lines[k..], '\n');
      assert lines[k..][0] == lines[k];
    }
  }

  // ---------------------------------------------------------------------------
  // Sorting and counting

  /** Orders entries by key under a comparison on keys. */
  function KeyLe(le: (string, string) -> bool): ((string, JsValue), (string, JsValue)) -> bool
  {
    (a: (string, JsValue), b: (string, JsValue)) => le(a.0, b.0)
  }

  lemma KeyLeTotal(le: (string, string) -> bool)
    requires Total(le)
    ensures Total(KeyLe(le))
  {
    forall a: (string, JsValue), b: (string, JsValue) ensures KeyLe(le)(a, b) || KeyLe(le)(b, a) {
      assert le(a.0, b.0) || le(b.0, a.0);
    }
  }

  /**
   * sortObjectKeys: the same entries ordered by key; `le` is the caller's
   * String.prototype.localeCompare ordering. A missing or non-object value
   * becomes the empty object.
   */
  function SortObjectKeys(obj: JsValue, le: (string, string) -> bool): (r: JsValue)
    ensures r.JsObject?
    ensures multiset(r.entries) == multiset(if obj.JsObject? then obj.entries else [])
    ensures Total(le) ==> forall i :: 0 <= i < |r.entries| - 1 ==> le(r.entries[i].0, r.entries[i + 1].0)
  {
    if !obj.JsObject? then JsObject([])
    else
      var sorted := SortBy(obj.entries, KeyLe(le));
      assert Total(le) ==> SortedBy(sorted, KeyLe(le)) by {
        if Total(le) {
          KeyLeTotal(le);
        }
      }
      JsObject(sorted)
  }

  /** The number of entries with a truthy value. */
  function CountTruthy(e: Entries): (n: nat)
    ensures n <= |e|
    ensures n == |e| <==> forall i :: 0 <= i < |e| ==> Truthy(e[i].1)
    ensures n == 0 <==> forall i :: 0 <= i < |e| ==> !Truthy(e[i].1)
  {
    if e == [] then 0
    else CountTruthy(e[..|e| - 1]) + (if Truthy(e[|e| - 1].1) then 1 else 0)
  }

  /** The positions of the entries with a truthy value. */
  function TruthyPositions(e: Entries): set<int>
  {
    set i | 0 <= i < |e| && Truthy(e[i].1)
  }

  /** The running count is exactly the number of truthy entries, as `filter(Boolean).length` counts them. */
  lemma {:induction false} CountTruthyIsCount(e: Entries)
    ensures CountTruthy(e) == |TruthyPositions(e)|
  {
    if e != [] {
      var init := e[..|e| - 1];
      CountTruthyIsCount(init);
      var last := if Truthy(e[|e| - 1].1) then {|e| - 1} else {};
      assert TruthyPositions(e) == TruthyPositions(init) + last;
      assert TruthyPositions(init) !! last;
    }
  }

  /**
   * countEnabledItems: the number of truthy values of a section. An absent
   * section counts as empty, `null` makes Object.values throw, a string counts
   * its characters (each a non-empty string), other values have no entries.
   */
  function CountEnabledItems(section: JsValue): (r: Result<nat, string>)
    ensures r.Err? <==> section.JsNull?
    ensures section.JsObject? ==> r == Ok(|TruthyPositions(section.entries)|) && r.value <= |section.entries|
    ensures section.JsObject? ==> (r == Ok(|section.entries|) <==> forall i :: 0 <= i < |section.entries| ==> Truthy(section.entries[i].1))
    ensures section.JsObject? ==> (r == Ok(0) <==> forall i :: 0 <= i < |section.entries| ==> !Truthy(section.entries[i].1))
    ensures section.JsString? ==> r == Ok(|section.s|)
  {
    match section
    case JsUndefined => Ok(0)
    case JsNull => Result<nat, string>.Err("Cannot convert undefined or null to object")
    case JsObject(e) => CountTruthyIsCount(e); Ok(CountTruthy(e))
    case JsString(s) => Ok(|s|)
    case _ => Ok(0)
  }

  // ---------------------------------------------------------------------------
  // Item paths

  function LastSegment(t: string): (r: string)
    ensures '/' !in r && |r| <= |t| && r == t[|t| - |r|..]
    ensures |r| < |t| ==> t[|t| - |r| - 1] == '/'
  {
    if t == [] || t[|t| - 1] == '/' then []
    else LastSegment(t[..|t| - 1]) + [t[|t| - 1]]
  }

  predicate IsSlash(c: char) { c == '/' }

  /** POSIX path.basename: trailing slashes are ignored, then the text after the last slash. */
  function Basename(p: string): (r: string)
    ensures '/' !in r
  {
    LastSegment(TrimEnd(p, IsSlash))
  }

  /** The name without a trailing item extension, if it has one. */
  function StripItemExt(b: string): string
  {
    if EndsWith(b, ".prompt.md") then b[..|b| - |".prompt.md"|]
    else if EndsWith(b, ".instructions.md") then b[..|b| - |".instructions.md"|]
    else if EndsWith(b, ".chatmode.md") then b[..|b| - |".chatmode.md"|]
    else b
  }

  /** extractItemName: the basename without its item extension, if it has one. */
  function ExtractItemName(itemPath: string): string
  {
    StripItemExt(Basename(itemPath))
  }

  /** A path names an item of `s` when it passes through the section's directory and has its extension. */
  predicate InSection(p: string, s: ArtifactSection)
  {
    Contains(p, SectionKey(s) + "/") && EndsWith(p, Ext(s))
  }

  /** getSectionFromPath: the section whose directory and extension the path carries. */
  function SectionFromPath(itemPath: string): Option<ArtifactSection>
  {
    if InSection(itemPath, Prompts) then Option<ArtifactSection>.Some(Prompts)
    else if InSection(itemPath, Instructions) then Option<ArtifactSection>.Some(Instructions)
    else if InSection(itemPath, ChatModes) then Option<ArtifactSection>.Some(ChatModes)
    else None
  }

  /** A path belongs to the section getSectionFromPath names, and to no other. */
  lemma SectionFromPathIff(itemPath: string, s: ArtifactSection)
    ensures SectionFromPath(itemPath) == Some(s) <==> InSection(itemPath, s)
  {
    ExtensionsExclusive(itemPath);
  }

  /** No path ends with two different item extensions. */
  lemma ExtensionsExclusive(p: string)
    ensures !(EndsWith(p, ".prompt.md") && EndsWith(p, ".instructions.md"))
    ensures !(EndsWith(p, ".prompt.md") && EndsWith(p, ".chatmode.md"))
    ensures !(EndsWith(p, ".instructions.md") && EndsWith(p, ".chatmode.md"))
  {
    if EndsWith(p, ".prompt.md") {
      assert p[|p| - 4] == p[|p| - 10..][6] == 't';
    }
    if EndsWith(p, ".instructions.md") {
      assert p[|p| - 4] == p[|p| - 16..][12] == 's';
    }
    if EndsWith(p, ".chatmode.md") {
      assert p[|p| - 4] == p[|p| - 12..][8] == 'e';
    }
  }

  /** A suffix without a slash survives taking the last path segment. */
  lemma {:induction false} LastSegmentKeepsSuffix(t: string, x: string)
    requires EndsWith(t, x) && '/' !in x
    ensures EndsWith(LastSegment(t), x)
  {
    if x != [] {
      assert t[|t| - 1] == x[|x| - 1];
      LastSegmentKeepsSuffix(t[..|t| - 1], x[..|x| - 1]);
    }
  }

  /** Trimming trailing slashes leaves a path that does not end in one unchanged. */
  lemma TrimEndNoSlash(p: string)
    requires p != [] && p[|p| - 1] != '/'
    ensures TrimEnd(p, IsSlash) == p
  {
  }

  /** Stripping removes exactly the section's extension from a name that has it. */
  lemma StripItemExtOf(b: string, s: ArtifactSection)
    requires EndsWith(b, Ext(s))
    ensures StripItemExt(b) + Ext(s) == b
  {
    ExtensionsExclusive(b);
    assert b[..|b| - |Ext(s)|] + b[|b| - |Ext(s)|..] == b;
  }

  /** No item extension contains a slash. */
  lemma ExtNoSlash(s: Section)
    ensures '/' !in Ext(s)
  {
    match s
    case Prompts =>
    case Instructions =>
    case ChatModes =>
    case Collections =>
  }

  /** A path in a section ends with the section's extension, so in 'd' and not in a slash. */
  lemma SectionPathEnd(itemPath: string, s: ArtifactSection)
    requires SectionFromPath(itemPath) == Some(s)
    ensures EndsWith(itemPath, Ext(s)) && itemPath != [] && itemPath[|itemPath| - 1] == 'd'
  {
    SectionFromPathIff(itemPath, s);
    var ext := Ext(s);
    assert itemPath[|itemPath| - 1] == itemPath[|itemPath| - |ext|..][|ext| - 1];
    assert ext[|ext| - 1] == 'd';
  }

  /** The item name of a path in a section is its basename without the section's extension. */
  lemma ExtractItemNameOfSection(itemPath: string, s: ArtifactSection)
    requires SectionFromPath(itemPath) == Some(s)
    ensures ExtractItemName(itemPath) + Ext(s) == Basename(itemPath)
    ensures '/' !in ExtractItemName(itemPath)
  {
    var ext := Ext(s);
    SectionPathEnd(itemPath, s);
    TrimEndNoSlash(itemPath);
    ExtNoSlash(s);
    LastSegmentKeepsSuffix(itemPath, ext);
    StripItemExtOf(Basename(itemPath), s);
  }

  // ---------------------------------------------------------------------------
  // Effective item states

  datatype Reason =
    | Explicit(value: bool)
    | FromCollections(via: seq<string>)
    | Default

  /** The effectively enabled items of one section and the reason for every item. */
  datatype SectionStates = SectionStates(enabled: set<string>, reasons: map<string, Reason>)

  datatype EffectiveStates = EffectiveStates(prompts: SectionStates, instructions: SectionStates, chatmodes: SectionStates)
  {
    function Of(s: ArtifactSection): SectionStates
    {
      match s
      case Prompts => prompts
      case Instructions => instructions
      case ChatModes => chatmodes
    }
  }

  /** The entries of the configuration's collections section (none when it is not an object). */
  function CollectionEntries(config: Entries): Entries
  {
    var c := Get(config, "collections");
    if c.JsObject? then c.entries else []
  }

  /** `config[section][name]`, undefined when the section is not an object. */
  function ExplicitFlag(config: Entries, sec: ArtifactSection, name: string): JsValue
  {
    var sectionConfig := Get(config, SectionKey(sec));
    if sectionConfig.JsObject? then Get(sectionConfig.entries, name) else JsUndefined
  }

  /** The section and item name a collection path stands for, if it is an item path. */
  function ItemKey(p: string): Option<ItemRef>
  {
    match SectionFromPath(p)
    case Some(sec) => Some((sec, ExtractItemName(p)))
    case None => None
  }

  type ItemRef = (ArtifactSection, string)

  /**
   * One of the paths stands for the item under `keyOf`. The model always
   * classifies paths with ItemKey; taking the classifier as a value keeps the
   * list reasoning apart from the string reasoning of the path functions.
   */
  predicate Lists(paths: seq<string>, keyOf: string -> Option<ItemRef>, key: ItemRef)
  {
    paths != [] && (Lists(paths[..|paths| - 1], keyOf, key) || keyOf(paths[|paths| - 1]) == Some(key))
  }

  lemma {:induction false} ListsWitness(paths: seq<string>, keyOf: string -> Option<ItemRef>, key: ItemRef)
    ensures Lists(paths, keyOf, key) ==> exists i :: 0 <= i < |paths| && keyOf(paths[i]) == Some(key)
  {
    if paths != [] {
      var init := paths[..|paths| - 1];
      ListsWitness(init, keyOf, key);
      if exists i :: 0 <= i < |init| && keyOf(init[i]) == Some(key) {
        var i :| 0 <= i < |init| && keyOf(init[i]) == Some(key);
        assert paths[i] == init[i];
      }
    }
  }

  lemma {:induction false} ListsFromWitness(paths: seq<string>, keyOf: string -> Option<ItemRef>, key: ItemRef)
    ensures (exists i :: 0 <= i < |paths| && keyOf(paths[i]) == Some(key)) ==> Lists(paths, keyOf, key)
  {
    if paths != [] {
      var init := paths[..|paths| - 1];
      ListsFromWitness(init, keyOf, key);
      if exists i :: 0 <= i < |paths| && keyOf(paths[i]) == Some(key) {
        var i :| 0 <= i < |paths| && keyOf(paths[i]) == Some(key);
        if i < |init| {
          assert init[i] == paths[i];
          assert Lists(init, keyOf, key);
        } else {
          assert i == |paths| - 1;
        }
      }
    }
  }

  /** A collection lists an item exactly when one of its paths stands for it. */
  lemma ListsIff(paths: seq<string>, keyOf: string -> Option<ItemRef>, key: ItemRef)
    ensures Lists(paths, keyOf, key) <==> exists i :: 0 <= i < |paths| && keyOf(paths[i]) == Some(key)
  {
    ListsWitness(paths, keyOf, key);
    ListsFromWitness(paths, keyOf, key);
  }

  lemma ListsStep(paths: seq<string>, keyOf: string -> Option<ItemRef>, i: nat, key: ItemRef)
    requires i < |paths|
    ensures Lists(paths[..i + 1], keyOf, key) <==> Lists(paths[..i], keyOf, key) || keyOf(paths[i]) == Some(key)
  {
    assert paths[..i + 1][..i] == paths[..i];
  }

  /** Whether an enabled collection grants the item: its file loads and lists the item. */
  predicate Grants(entry: (string, JsValue), load: string -> Option<seq<string>>, key: ItemRef)
  {
    Truthy(entry.1) && load(entry.0).Some? && Lists(load(entry.0).value, ItemKey, key)
  }

  /** The names of the collections that grant the item. */
  function Granting(colls: Entries, load: string -> Option<seq<string>>, key: ItemRef): set<string>
  {
    if colls == [] then {}
    else
      var last := colls[|colls| - 1];
      Granting(colls[..|colls| - 1], load, key) + (if Grants(last, load, key) then {last.0} else {})
  }

  /** A collection grants an item exactly when some enabled entry of that name loads and lists it. */
  lemma {:induction false} GrantingIff(colls: Entries, load: string -> Option<seq<string>>, key: ItemRef, c: string)
    ensures c in Granting(colls, load, key)
      <==> exists i :: 0 <= i < |colls| && colls[i].0 == c && Grants(colls[i], load, key)
  {
    if colls != [] {
      var init := colls[..|colls| - 1];
      GrantingIff(init, load, key, c);
      if exists i :: 0 <= i < |colls| && colls[i].0 == c && Grants(colls[i], load, key) {
        var i :| 0 <= i < |colls| && colls[i].0 == c && Grants(colls[i], load, key);
        if i < |init| {
          assert init[i] == colls[i];
        }
      }
      if exists i :: 0 <= i < |init| && init[i].0 == c && Grants(init[i], load, key) {
        var i :| 0 <= i < |init| && init[i].0 == c && Grants(init[i], load, key);
        assert colls[i] == init[i];
      }
    }
  }

  /**
   * Collections `wider` enables every collection `narrower` enables, at the same
   * position under the same name; further entries of `narrower` are disabled.
   */
  predicate Covers(wider: Entries, narrower: Entries)
  {
    forall i :: 0 <= i < |narrower| && Truthy(narrower[i].1) ==>
      i < |wider| && wider[i].0 == narrower[i].0 && Truthy(wider[i].1)
  }

  /** Fewer enabled collections grant no more. */
  lemma GrantingCovered(wider: Entries, narrower: Entries, load: string -> Option<seq<string>>, key: ItemRef)
    requires Covers(wider, narrower)
    ensures Granting(narrower, load, key) <= Granting(wider, load, key)
  {
    forall c | c in Granting(narrower, load, key) ensures c in Granting(wider, load, key) {
      GrantingIff(narrower, load, key, c);
      var i :| 0 <= i < |narrower| && narrower[i].0 == c && Grants(narrower[i], load, key);
      assert Grants(wider[i], load, key);
      GrantingIff(wider, load, key, c);
    }
  }

  /** Enabling one collection in place covers the old collections, and is covered by them when disabling. */
  lemma {:induction false} PutCovers(e: Entries, k: string, b: bool)
    ensures b ==> Covers(Put(e, k, JsBool(b)), e)
    ensures !b ==> Covers(e, Put(e, k, JsBool(b)))
  {
    if e != [] {
      PutCovers(e[1..], k, b);
      if e[0].0 != k {
        var r := Put(e, k, JsBool(b));
        assert r == [e[0]] + Put(e[1..], k, JsBool(b));
        assert forall i :: 0 < i < |r| ==> r[i] == Put(e[1..], k, JsBool(b))[i - 1];
        assert forall i :: 0 < i < |e| ==> e[i] == e[1..][i - 1];
      }
    }
  }

  /**
   * The precedence rules for one item: an explicit `true` or `false` wins;
   * otherwise the item is enabled exactly when some enabled collection lists it,
   * and its reason names exactly those collections, sorted and without repeats.
   */
  ghost predicate Resolved(st: SectionStates, name: string, flag: JsValue, granting: set<string>)
  {
    name in st.reasons &&
    if flag == JsBool(true) then name in st.enabled && st.reasons[name] == Explicit(true)
    else if flag == JsBool(false) then name !in st.enabled && st.reasons[name] == Explicit(false)
    else if granting != {} then
      && name in st.enabled
      && st.reasons[name].FromCollections?
      && (forall c :: c in st.reasons[name].via <==> c in granting)
      && SortedBy(st.reasons[name].via, LexLe)
      && Distinct(st.reasons[name].via)
    else name !in st.enabled && st.reasons[name] == Default
  }

  /** A section's states cover exactly its catalog and resolve every item by the precedence rules. */
  ghost predicate SectionResolved(st: SectionStates, config: Entries, items: seq<string>,
                                  load: string -> Option<seq<string>>, sec: ArtifactSection)
  {
    && st.reasons.Keys == (set n | n in items)
    && st.enabled <= st.reasons.Keys
    && forall n :: n in items ==> Resolved(st, n, ExplicitFlag(config, sec, n), Granting(CollectionEntries(config), load, (sec, n)))
  }

  /** An item resolves to enabled exactly when it is explicitly on, or not explicitly off and granted. */
  lemma ResolvedEnabled(st: SectionStates, name: string, flag: JsValue, granting: set<string>)
    requires Resolved(st, name, flag, granting)
    ensures name in st.enabled <==> flag == JsBool(true) || (flag != JsBool(false) && granting != {})
  {
  }

  /**
   * With the same explicit flags, granting more can only enable more: every item
   * enabled under the narrower collections stays enabled under the wider ones.
   */
  lemma EnabledMonotone(narrow: SectionStates, wide: SectionStates, narrowConfig: Entries, wideConfig: Entries,
                        items: seq<string>, load: string -> Option<seq<string>>, sec: ArtifactSection)
    requires SectionResolved(narrow, narrowConfig, items, load, sec)
    requires SectionResolved(wide, wideConfig, items, load, sec)
    requires forall n :: ExplicitFlag(wideConfig, sec, n) == ExplicitFlag(narrowConfig, sec, n)
    requires Covers(CollectionEntries(wideConfig), CollectionEntries(narrowConfig))
    ensures narrow.enabled <= wide.enabled
  {
    forall n | n in narrow.enabled ensures n in wide.enabled {
      assert n in items;
      var flag := ExplicitFlag(narrowConfig, sec, n);
      GrantingCovered(CollectionEntries(wideConfig), CollectionEntries(narrowConfig), load, (sec, n));
      ResolvedEnabled(narrow, n, flag, Granting(CollectionEntries(narrowConfig), load, (sec, n)));
      ResolvedEnabled(wide, n, flag, Granting(CollectionEntries(wideConfig), load, (sec, n)));
    }
  }

  /** A disabled collection grants nothing, whatever it lists. */
  lemma DisabledCollectionsGrantNothing(colls: Entries, load: string -> Option<seq<string>>, key: ItemRef, c: string)
    requires forall i :: 0 <= i < |colls| && colls[i].0 == c ==> !Truthy(colls[i].1)
    ensures c !in Granting(colls, load, key)
  {
    GrantingIff(colls, load, key, c);
  }

  type Membership = map<ItemRef, seq<string>>

  /** The collections recorded for an item, none when it has no entry. */
  function Members(m: Membership, key: ItemRef): seq<string>
  {
    if key in m then m[key] else []
  }

  function MemberSet(m: Membership, key: ItemRef): set<string>
  {
    set c | c in Members(m, key)
  }

  /** The membership map records, without repeats, the collections that grant each item. */
  ghost predicate MembershipOf(m: Membership, colls: Entries, load: string -> Option<seq<string>>)
  {
    && (forall key, c :: c in Members(m, key) <==> c in Granting(colls, load, key))
    && (forall key :: Distinct(Members(m, key)))
  }

  /** One more collection entry grants the item when it is enabled, loads and lists it. */
  lemma GrantingNext(colls: Entries, j: nat, load: string -> Option<seq<string>>, key: ItemRef)
    requires j < |colls|
    ensures Granting(colls[..j + 1], load, key)
      == Granting(colls[..j], load, key) + (if Grants(colls[j], load, key) then {colls[j].0} else {})
  {
    assert colls[..j + 1][..j] == colls[..j];
  }

  /** Recording collection entry `j` extends the membership of the entries before it to the entries up to it. */
  lemma MembershipNext(m: Membership, m': Membership, colls: Entries, j: nat, load: string -> Option<seq<string>>)
    requires j < |colls| && MembershipOf(m, colls[..j], load)
    requires forall key, c :: c in Members(m', key) <==> c in Members(m, key) || (c == colls[j].0 && Grants(colls[j], load, key))
    requires forall key :: Distinct(Members(m, key)) ==> Distinct(Members(m', key))
    ensures MembershipOf(m', colls[..j + 1], load)
  {
    forall key, c ensures c in Members(m', key) <==> c in Granting(colls[..j + 1], load, key) {
      GrantingNext(colls, j, load, key);
    }
  }

  /** One recording step: the collection joins the item's list unless it is already there. */
  lemma RecordStep(before: Membership, after: Membership, k: Option<ItemRef>, name: string)
    requires after == if k.Some? && name !in Members(before, k.value)
      then before[k.value := Members(before, k.value) + [name]] else before
    ensures forall key, c :: c in Members(after, key) <==> c in Members(before, key) || (c == name && k == Some(key))
    ensures forall key :: Distinct(Members(before, key)) ==> Distinct(Members(after, key))
  {
    forall key | Distinct(Members(before, key)) ensures Distinct(Members(after, key)) {
      if k.Some? && key == k.value && name !in Members(before, key) {
        assert Members(after, key) == Members(before, key) + [name];
      } else {
        assert Members(after, key) == Members(before, key);
      }
    }
  }

  /** Records collection `name` for every item its paths stand for. */
  method AddCollection(m: Membership, name: string, paths: seq<string>) returns (m': Membership)
    ensures forall key, c :: c in Members(m', key) <==> c in Members(m, key) || (c == name && Lists(paths, ItemKey, key))
    ensures forall key :: Distinct(Members(m, key)) ==> Distinct(Members(m', key))
  {
    var keyOf := ItemKey;
    m' := m;
    for i := 0 to |paths|
      invariant forall key, c :: c in Members(m', key) <==> c in Members(m, key) || (c == name && Lists(paths[..i], keyOf, key))
      invariant forall key :: Distinct(Members(m, key)) ==> Distinct(Members(m', key))
    {
      var itemKey := keyOf(paths[i]);
      ghost var before := m';
      if itemKey.Some? {
        var current := Members(m', itemKey.value);
        if name !in current {
          m' := m'[itemKey.value := current + [name]];
        }
      }
      RecordStep(before, m', itemKey, name);
      forall key, c ensures c in Members(m', key) <==> c in Members(m, key) || (c == name && Lists(paths[..i + 1], keyOf, key)) {
        ListsStep(paths, keyOf, i, key);
      }
    }
    assert paths[..|paths|] == paths;
  }

  /** Resolution of an item depends only on its own entries in the states. */
  lemma ResolvedFrame(st: SectionStates, st': SectionStates, n: string, flag: JsValue, granting: set<string>)
    requires Resolved(st, n, flag, granting)
    requires n in st'.reasons && st'.reasons[n] == st.reasons[n]
    requires n in st'.enabled <==> n in st.enabled
    ensures Resolved(st', n, flag, granting)
  {
  }

  /** Resolves every catalog item of one section against the explicit flags and the membership map. */
  method ResolveSection(config: Entries, sec: ArtifactSection, items: seq<string>, m: Membership)
    returns (st: SectionStates)
    requires forall key :: Distinct(Members(m, key))
    ensures st.reasons.Keys == (set n | n in items)
    ensures st.enabled <= st.reasons.Keys
    ensures forall n :: n in items ==> Resolved(st, n, ExplicitFlag(config, sec, n), MemberSet(m, (sec, n)))
  {
    var enabled: set<string> := {};
    var reasons: map<string, Reason> := map[];
    for i := 0 to |items|
      invariant reasons.Keys == (set n | n in items[..i])
      invariant enabled <= reasons.Keys
      invariant forall n :: n in reasons ==>
        Resolved(SectionStates(enabled, reasons), n, ExplicitFlag(config, sec, n), MemberSet(m, (sec, n)))
    {
      assert items[..i + 1] == items[..i] + [items[i]];
      ghost var before := SectionStates(enabled, reasons);
      var itemName := items[i];
      var explicitFlag := ExplicitFlag(config, sec, itemName);
      var inCollections := Members(m, (sec, itemName));
      var isEnabled := false;
      var reason := Default;
      if explicitFlag == JsBool(true) {
        isEnabled := true;
        reason := Explicit(true);
      } else if explicitFlag == JsBool(false) {
        reason := Explicit(false);
      } else if |inCollections| > 0 {
        isEnabled := true;
        var via := SortStrings(inCollections);
        DistinctPermutation(inCollections, via);
        assert forall c :: c in via <==> c in multiset(via);
        assert inCollections[0] in MemberSet(m, (sec, itemName));
        reason := FromCollections(via);
      } else {
        assert MemberSet(m, (sec, itemName)) == {};
      }
      if isEnabled {
        enabled := enabled + {itemName};
      }
      reasons := reasons[itemName := reason];
      assert Resolved(SectionStates(enabled, reasons), itemName, explicitFlag, MemberSet(m, (sec, itemName)));
      forall n | n in reasons && n != itemName
        ensures Resolved(SectionStates(enabled, reasons), n, ExplicitFlag(config, sec, n), MemberSet(m, (sec, n)))
      {
        ResolvedFrame(before, SectionStates(enabled, reasons), n, ExplicitFlag(config, sec, n), MemberSet(m, (sec, n)));
      }
    }
    assert items[..|items|] == items;
    st := SectionStates(enabled, reasons);
  }

  /**
   * computeEffectiveItemStates: every catalog item of the three artifact
   * sections resolved by the precedence rules against the enabled collections.
   */
  method ComputeEffectiveItemStates(config: Entries, catalog: Section -> seq<string>,
                                    load: string -> Option<seq<string>>)
    returns (r: EffectiveStates)
    ensures forall sec: ArtifactSection :: SectionResolved(r.Of(sec), config, catalog(sec), load, sec)
  {
    var colls := CollectionEntries(config);
    var m: Membership := map[];
    for j := 0 to |colls|
      invariant MembershipOf(m, colls[..j], load)
    {
      var (collectionName, enabled) := colls[j];
      ghost var before := m;
      if Truthy(enabled) {
        var collection := load(collectionName);
        if collection.Some? {
          m := AddCollection(m, collectionName, collection.value);
        }
      }
      MembershipNext(before, m, colls, j, load);
    }
    assert colls[..|colls|] == colls;
    forall key ensures MemberSet(m, key) == Granting(colls, load, key) {
    }
    var prompts := ResolveSection(config, Prompts, catalog(Prompts), m);
    var instructions := ResolveSection(config, Instructions, catalog(Instructions), m);
    var chatmodes := ResolveSection(config, ChatModes, catalog(ChatModes), m);
    r := EffectiveStates(prompts, instructions, chatmodes);
  }
}
