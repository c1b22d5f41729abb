/**
 * determine_watch_path: which directory to watch and which pattern is left to
 * match the names reported in it. A pattern that looks like a path is split
 * with dirname() and basename(); otherwise, or with no pattern, the current
 * working directory is watched.
 */
module WatchPath {
  import opened Wrappers
  import opened PathSplit
  import Glob
  import Events

  /**
   * The split as trigger.c writes it: the pattern is split only when its
   * dirname is not ".", which also keeps patterns that start with "./" whole.
   * The pair is (directory to watch, pattern left), the directory None when
   * the working directory is needed and cannot be obtained.
   */
  function ResolveAsWritten(pattern: Option<string>, cwd: Option<string>): (r: (Option<string>, Option<string>))
    ensures pattern.None? ==> r == (cwd, None)
    ensures pattern.Some? && !HasDirectory(pattern.value) ==> r == (cwd, pattern)
    ensures r.1 != pattern ==> r.1.Some? && (r.1.value == "/" || '/' !in r.1.value)
  {
    if pattern.Some? && !HasDirectory(pattern.value) then
      NoDirectoryDirnameDot(pattern.value);
      (cwd, pattern)
    else if pattern.Some? && Dirname(pattern.value) != "." then
      (Some(Dirname(pattern.value)), Some(Basename(pattern.value)))
    else (cwd, pattern)
  }

  /**
   * The split the source's own description of determine_watch_path asks for:
   * a pattern that names a directory part is split, whatever that directory is.
   */
  function Resolve(pattern: Option<string>, cwd: Option<string>): (Option<string>, Option<string>)
  {
    if pattern.Some? && HasDirectory(pattern.value) then
      (Some(Dirname(pattern.value)), Some(Basename(pattern.value)))
    else (cwd, pattern)
  }

  /**
   * determine_watch_path: `pattern` is main's pattern, which the C code
   * rewrites through its pointer; `newPattern` is its value afterwards.
   * `cwd` is what getcwd() yields, None when it fails.
   */
  method DetermineWatchPath(pattern: Option<string>, cwd: Option<string>) returns (path: Option<string>, newPattern: Option<string>)
    ensures (path, newPattern) == ResolveAsWritten(pattern, cwd)
    ensures path.None? <==> cwd.None? && (pattern.None? || Dirname(pattern.value) == ".")
    ensures pattern.None? ==> path == cwd && newPattern.None?
    ensures newPattern != pattern ==> newPattern.Some? && (newPattern.value == "/" || '/' !in newPattern.value)
  {
    var p: Option<string> := None;
    newPattern := pattern;
    if pattern.Some? {
      var bname := Basename(pattern.value);
      var dname := Dirname(pattern.value);
      if dname != "." {
        p := Some(dname);
        newPattern := Some(bname);
      }
    }
    if p.None? {
      p := cwd;
    }
    path := p;
  }

  /** The two splits differ only on patterns with a directory part whose dirname is ".". */
  lemma ResolveDiffersOnlyOnDot(pattern: Option<string>, cwd: Option<string>)
    ensures Resolve(pattern, cwd) != ResolveAsWritten(pattern, cwd) ==>
      pattern.Some? && HasDirectory(pattern.value) && Dirname(pattern.value) == "."
  {
  }

  /**
   * The pattern left after the split has no directory part of its own (bar
   * the root `/`), except a pattern kept whole because its dirname is ".",
   * such as `./name-pattern`.
   */
  lemma ResidualHasNoDirectory(pattern: Option<string>, cwd: Option<string>)
    requires ResolveAsWritten(pattern, cwd).1.Some?
    ensures var q := ResolveAsWritten(pattern, cwd).1.value;
      q == "/" || !HasDirectory(q) || (q == pattern.value && Dirname(q) == ".")
  {
  }

  /** With the corrected split, the pattern left never has a directory part of its own (bar the root `/`). */
  lemma CorrectedResidualHasNoDirectory(pattern: Option<string>, cwd: Option<string>)
    requires Resolve(pattern, cwd).1.Some?
    ensures var q := Resolve(pattern, cwd).1.value; q == "/" || !HasDirectory(q)
  {
  }

  /**
   * A pattern `dir/name-pattern` (dir without special characters) is split
   * into dir and name-pattern, and a name reported in dir triggers exactly
   * when `dir/name` matches the pattern given.
   */
  lemma ResolveKeepsMatching(dir: string, base: string, name: string, cwd: Option<string>, mask: bv32)
    requires dir != [] && dir[|dir| - 1] != '/' && Glob.Plain(dir)
    requires base != [] && '/' !in base
    requires '/' !in name
    ensures Resolve(Some(dir + "/" + base), cwd) == (Some(dir), Some(base))
    ensures Events.ShouldTrigger(Events.Event(mask, Some(name)), Some(base)) <==>
      Glob.FnMatch(dir + "/" + base, dir + "/" + name)
  {
    var p := dir + "/" + base;
    SplitJoin(dir, base);
    assert p[|dir|] == '/' && p[|p| - 1] == base[|base| - 1];
    assert base[|base| - 1] in base;
    assert HasDirectory(p);
    Glob.DirectoryPrefix(dir, base, name);
    Glob.FnMatchIsGlob(base, name);
  }

  // Pattern "src/*.c" watches "src" for "*.c"; "foo.txt" and no pattern watch the working directory.
  lemma ResolveExamples(cwd: Option<string>)
    ensures ResolveAsWritten(Some("src/*.c"), cwd) == (Some("src"), Some("*.c"))
    ensures ResolveAsWritten(Some("foo.txt"), cwd) == (cwd, Some("foo.txt"))
    ensures ResolveAsWritten(None, cwd) == (cwd, None)
  {
    assert "src/*.c" == "src" + "/" + "*.c";
    SplitJoin("src", "*.c");
    assert "src/*.c"[3] == '/' && "src/*.c"[4] == '*';
    assert HasDirectory("src/*.c");
    assert !AllSlashes("foo.txt") by { assert "foo.txt"[0] == 'f'; }
    assert NoInnerSlash("foo.txt") by {
      forall i | 0 <= i < |"foo.txt"| ensures "foo.txt"[i] != '/' {}
    }
  }

  /** Put `./` in front of a name, and it matches `./pattern` exactly when it matches `pattern`. */
  lemma DotSlashPrefixed(pattern: string, name: string)
    ensures Glob.FnMatch("./" + pattern, "./" + name) <==> Glob.FnMatch(pattern, name)
  {
    Glob.DirectoryPrefix(".", pattern, name);
    assert "." + "/" + pattern == "./" + pattern;
    assert "." + "/" + name == "./" + name;
  }

  /**
   * As written, a pattern `./name-pattern` is kept whole and the working
   * directory watched; since a reported name never holds a `/`, no event
   * ever triggers, although such names do match the pattern once `./` is
   * put in front of them (DotSlashPrefixed).
   */
  lemma DotSlashPatternNeverTriggers(base: string, name: string, cwd: Option<string>, mask: bv32)
    requires base != [] && '/' !in base
    requires '/' !in name
    ensures ResolveAsWritten(Some("./" + base), cwd) == (cwd, Some("./" + base))
    ensures !Events.ShouldTrigger(Events.Event(mask, Some(name)), Some("./" + base))
  {
    SplitJoin(".", base);
    assert "./" + base == "." + "/" + base;
    Glob.DotSlashNeedsSlash(base, name);
  }
}
