/** The exclusion rules of `ProjectStructure`: the built-in pattern sets that
    `__init__` merges into the caller's, and the two rules of `should_exclude`,
    one for directory names and one for file names. */
module Exclusion {
  import opened Strings
  import opened FileTree

  /** The directory patterns that are always in force. */
  const DefaultExcludeDirs: set<string> :=
    {".git", ".vscode", ".idea", "__pycache__", "node_modules",
     "build", "dist", "bin", "obj", ".pytest_cache"}

  /** The file patterns that are always in force. */
  const DefaultExcludeFiles: set<string> :=
    {".DS_Store", "Thumbs.db", "*.pyc", "*.pyo", "*.so", "*.dll",
     "*.exe", "*.mod", "*.o", "*.a"}

  /** The configuration one run consults at every step: the merged pattern sets
      and the depth bound. */
  datatype Config = Config(excludeDirs: set<string>, excludeFiles: set<string>, maxDepth: int)

  /** The pattern sets after `__init__`: the caller's patterns (none when the
      caller passes `None` or an empty list) together with the defaults. */
  function Merge(callerPatterns: seq<string>, defaults: set<string>): (merged: set<string>)
    ensures defaults <= merged
    ensures forall p :: p in merged <==> p in callerPatterns || p in defaults
  {
    (set p | p in callerPatterns) + defaults
  }

  /** The directory rule: `name in patterns or any(p in name for p in patterns)`.
      The second disjunct already covers the first (see DirExactMatchIsContainment). */
  predicate DirExcluded(patterns: set<string>, name: string) {
    exists p {:trigger IsSubstring(p, name)} | p in patterns :: IsSubstring(p, name)
  }

  /** A file pattern that matches by suffix: it starts with `*`. */
  predicate IsWildcard(pattern: string) {
    |pattern| > 0 && pattern[0] == '*'
  }

  /** `pattern.startswith('*') and name.endswith(pattern[1:])`. */
  predicate WildcardMatches(pattern: string, name: string) {
    IsWildcard(pattern) && EndsWith(name, pattern[1..])
  }

  /** The text a file pattern asks the name to end with: the pattern itself, or
      what follows the `*` of a wildcard. */
  function PatternText(pattern: string): string {
    if IsWildcard(pattern) then pattern[1..] else pattern
  }

  /** Every name ends with its own pattern text. */
  lemma EndsWithOwnText(name: string)
    ensures EndsWith(name, PatternText(name))
  {
    if IsWildcard(name) {
      assert name[|name| - |name[1..]|..] == name[1..];
    } else {
      assert name[|name| - |name|..] == name;
    }
  }

  /** The file rule: the name is a pattern, or some pattern `*S` has the name
      ending in `S`. Every exclusion is witnessed by a pattern whose text ends
      the name. */
  predicate FileExcluded(patterns: set<string>, name: string): (excluded: bool)
    ensures excluded ==> exists p | p in patterns :: EndsWith(name, PatternText(p))
  {
    EndsWithOwnText(name);
    name in patterns || exists p {:trigger WildcardMatches(p, name)} | p in patterns :: WildcardMatches(p, name)
  }

  /** `should_exclude(item, item.is_dir())`: each entry is judged by the rule for its kind. */
  predicate Excluded(cfg: Config, n: Node) {
    if n.Dir? then DirExcluded(cfg.excludeDirs, n.name) else FileExcluded(cfg.excludeFiles, n.name)
  }

  /** The exact-name test of the directory rule adds nothing: a name listed as a
      pattern contains itself. */
  lemma DirExactMatchIsContainment(patterns: set<string>, name: string)
    requires name in patterns
    ensures DirExcluded(patterns, name)
  {
    SubstringReflexive(name);
  }

  /** The directory rule is containment: every name with a pattern inside it is excluded. */
  lemma DirContainmentExcludes(patterns: set<string>, p: string, name: string, at: nat)
    requires p in patterns
    requires at + |p| <= |name| && name[at..at + |p|] == p
    ensures DirExcluded(patterns, name)
  {
    assert OccursAt(p, name, at);
    assert IsSubstring(p, name);
  }

  /** Excluding `build` also excludes `my_build` and `build_output_2024`, whatever the caller passes. */
  lemma BuildExcludesLookalikes(callerDirs: seq<string>)
    ensures DirExcluded(Merge(callerDirs, DefaultExcludeDirs), "my_build")
    ensures DirExcluded(Merge(callerDirs, DefaultExcludeDirs), "build_output_2024")
  {
    var merged := Merge(callerDirs, DefaultExcludeDirs);
    DirContainmentExcludes(merged, "build", "my_build", 3);
    DirContainmentExcludes(merged, "build", "build_output_2024", 0);
  }

  /** The caller can add patterns but never remove a default: whatever a
      default pattern excludes stays excluded after the merge. */
  lemma {:induction false} DefaultsCannotBeRemoved(callerDirs: seq<string>, callerFiles: seq<string>, name: string)
    ensures DirExcluded(DefaultExcludeDirs, name) ==> DirExcluded(Merge(callerDirs, DefaultExcludeDirs), name)
    ensures FileExcluded(DefaultExcludeFiles, name) ==> FileExcluded(Merge(callerFiles, DefaultExcludeFiles), name)
  {
    if DirExcluded(DefaultExcludeDirs, name) {
      var p :| p in DefaultExcludeDirs && IsSubstring(p, name);
      assert p in Merge(callerDirs, DefaultExcludeDirs);
    }
    if FileExcluded(DefaultExcludeFiles, name) && name !in DefaultExcludeFiles {
      var p :| p in DefaultExcludeFiles && WildcardMatches(p, name);
      assert p in Merge(callerFiles, DefaultExcludeFiles);
    }
  }

  /** A pattern without a leading `*` never matches by suffix: when no pattern
      is a wildcard, a file is excluded exactly when its name is a pattern. */
  lemma PlainPatternsMatchWholeNames(patterns: set<string>, name: string)
    requires forall p | p in patterns :: !IsWildcard(p)
    ensures FileExcluded(patterns, name) <==> name in patterns
  {
  }

  /** A wildcard pattern excludes every name ending in its remainder. */
  lemma WildcardExcludesSuffix(patterns: set<string>, p: string, name: string)
    requires p in patterns && IsWildcard(p)
    requires EndsWith(name, p[1..])
    ensures FileExcluded(patterns, name)
  {
    assert WildcardMatches(p, name);
  }

  /** With the defaults, `main.o` is excluded by `*.o`, while a bare `.o`
      pattern would leave it in. */
  lemma ObjectFileExamples()
    ensures FileExcluded(DefaultExcludeFiles, "main.o")
    ensures !FileExcluded({".o"}, "main.o")
  {
    assert "*.o"[1..] == ".o";
    assert "main.o"[6 - 2..] == ".o";
    WildcardExcludesSuffix(DefaultExcludeFiles, "*.o", "main.o");
    PlainPatternsMatchWholeNames({".o"}, "main.o");
  }
}
