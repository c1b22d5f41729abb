/**
 * The pattern matching that trigger.c asks of fnmatch(3) with FNM_PATHNAME:
 * the notation of section 2.13 of POSIX.1-2017 Shell & Utilities, restricted
 * to ordinary characters, backslash quoting, `?` and `*`. Under FNM_PATHNAME
 * neither wildcard matches a `/`: a `/` in the name can only be matched by a
 * `/` written in the pattern.
 */
module Glob {
  import opened Wrappers

  /** One element of a pattern once its quoting has been read. */
  datatype Token = Lit(c: char) | AnyChar | AnyRun

  /**
   * Reads a pattern into tokens. A backslash quotes the character after it;
   * a backslash at the very end leaves the pattern unmatchable (None).
   */
  function Tokens(pattern: string): (r: Option<seq<Token>>)
    ensures r.None? ==> pattern != [] && pattern[|pattern| - 1] == '\\'
    decreases |pattern|
  {
    if pattern == [] then Some([])
    else if pattern[0] == '\\' then
      if |pattern| == 1 then None
      else match Tokens(pattern[2..])
        case None => None
        case Some(t) => Some([Lit(pattern[1])] + t)
    else
      var tok := if pattern[0] == '*' then AnyRun else if pattern[0] == '?' then AnyChar else Lit(pattern[0]);
      match Tokens(pattern[1..])
      case None => None
      case Some(t) => Some([tok] + t)
  }

  /** The number of tokens that stand for exactly one character. */
  function Fixed(t: seq<Token>): nat
  {
    if t == [] then 0 else (if t[0] == AnyRun then 0 else 1) + Fixed(t[1..])
  }

  /** The matcher: consumes the name from the front, backtracking on `*`. */
  predicate MatchTokens(t: seq<Token>, s: string)
    decreases |t|, |s|
  {
    if t == [] then s == []
    else match t[0]
      case Lit(c) => s != [] && s[0] == c && MatchTokens(t[1..], s[1..])
      case AnyChar => s != [] && s[0] != '/' && MatchTokens(t[1..], s[1..])
      case AnyRun => MatchTokens(t[1..], s) || (s != [] && s[0] != '/' && MatchTokens(t, s[1..]))
  }

  /** A match gives every literal and `?` exactly one character of the name. */
  lemma {:induction false} MatchConsumes(t: seq<Token>, s: string)
    ensures MatchTokens(t, s) ==> Fixed(t) <= |s|
    ensures MatchTokens(t, s) && AnyRun !in t ==> |s| == |t|
    decreases |t|, |s|
  {
    if t != [] && MatchTokens(t, s) {
      assert t == [t[0]] + t[1..];
      match t[0]
      case Lit(_) => MatchConsumes(t[1..], s[1..]);
      case AnyChar => MatchConsumes(t[1..], s[1..]);
      case AnyRun =>
        if MatchTokens(t[1..], s) {
          MatchConsumes(t[1..], s);
        } else {
          MatchConsumes(t, s[1..]);
        }
    }
  }

  /** fnmatch(pattern, name, FNM_PATHNAME) == 0. */
  predicate FnMatch(pattern: string, name: string)
    ensures FnMatch(pattern, name) ==> Tokens(pattern).Some? && Fixed(Tokens(pattern).value) <= |name|
  {
    match Tokens(pattern)
    case None => false
    case Some(t) => MatchConsumes(t, name); MatchTokens(t, name)
  }

  /** A backslash added at the end of a readable pattern makes it match nothing. */
  lemma {:induction false} TrailingBackslash(pattern: string, name: string)
    requires Tokens(pattern).Some?
    ensures Tokens(pattern + "\\").None?
    ensures !FnMatch(pattern + "\\", name)
    decreases |pattern|
  {
    var p := pattern + "\\";
    if pattern == [] {
      assert p == "\\";
    } else if pattern[0] == '\\' {
      assert p[2..] == pattern[2..] + "\\";
      TrailingBackslash(pattern[2..], name);
    } else {
      assert p[1..] == pattern[1..] + "\\";
      TrailingBackslash(pattern[1..], name);
    }
  }

  /** Writes tokens back as pattern text, quoting the characters that are special. */
  function Quote(t: seq<Token>): (pattern: string)
    ensures Tokens(pattern) == Some(t)
  {
    if t == [] then []
    else
      var rest := Quote(t[1..]);
      assert t == [t[0]] + t[1..];
      match t[0]
      case AnyRun => assert (['*'] + rest)[1..] == rest; ['*'] + rest
      case AnyChar => assert (['?'] + rest)[1..] == rest; ['?'] + rest
      case Lit(c) =>
        if c == '\\' || c == '*' || c == '?' then
          assert (['\\', c] + rest)[2..] == rest && (['\\', c] + rest)[1] == c;
          ['\\', c] + rest
        else
          assert ([c] + rest)[1..] == rest && ([c] + rest)[0] == c;
          [c] + rest
  }

  // ---------------------------------------------------------------------------
  // Reference reading: a name matches when it is the pattern with each `?`
  // replaced by one character other than `/` and each `*` by a string without `/`.
  // ---------------------------------------------------------------------------

  /** What one token may stand for in the name. */
  predicate Covers(tok: Token, piece: string)
  {
    match tok
    case Lit(c) => piece == [c]
    case AnyChar => |piece| == 1 && piece[0] != '/'
    case AnyRun => '/' !in piece
  }

  /** `pieces` assigns to every token a piece of name it may stand for. */
  predicate Fits(t: seq<Token>, pieces: seq<string>)
  {
    |pieces| == |t| && forall i | 0 <= i < |t| :: Covers(t[i], pieces[i])
  }

  function Concat(pieces: seq<string>): string
  {
    if pieces == [] then [] else pieces[0] + Concat(pieces[1..])
  }

  ghost predicate Matches(pattern: string, name: string)
  {
    match Tokens(pattern)
    case None => false
    case Some(t) => exists pieces :: Fits(t, pieces) && Concat(pieces) == name
  }

  /** How a successful match splits the name among the tokens. */
  function Witness(t: seq<Token>, s: string): (pieces: seq<string>)
    requires MatchTokens(t, s)
    ensures Fits(t, pieces) && Concat(pieces) == s
    decreases |t|, |s|
  {
    if t == [] then []
    else match t[0]
    case Lit(c) =>
      var w := Witness(t[1..], s[1..]);
      assert ([[c]] + w)[1..] == w;
      [[c]] + w
    case AnyChar =>
      var w := Witness(t[1..], s[1..]);
      assert ([[s[0]]] + w)[1..] == w;
      [[s[0]]] + w
    case AnyRun =>
      if MatchTokens(t[1..], s) then
        var w := Witness(t[1..], s);
        assert ([[]] + w)[1..] == w;
        [[]] + w
      else
        var w := Witness(t, s[1..]);
        RunExtends(t, s[0], w);
        [[s[0]] + w[0]] + w[1..]
  }

  /** A split that gives a `*` its first piece extends to one more `/`-free character in front. */
  lemma RunExtends(t: seq<Token>, c: char, w: seq<string>)
    requires t != [] && t[0] == AnyRun && c != '/'
    requires Fits(t, w)
    ensures Fits(t, [[c] + w[0]] + w[1..])
    ensures Concat([[c] + w[0]] + w[1..]) == [c] + Concat(w)
  {
  }

  /** A `*` also absorbs any `/`-free prefix of the name. */
  lemma {:induction false} RunAbsorbs(t: seq<Token>, piece: string, rest: string)
    requires t != [] && t[0] == AnyRun && '/' !in piece
    requires MatchTokens(t[1..], rest)
    ensures MatchTokens(t, piece + rest)
    decreases |piece|
  {
    if piece == [] {
      assert piece + rest == rest;
    } else {
      RunAbsorbs(t, piece[1..], rest);
      assert (piece + rest)[1..] == piece[1..] + rest;
    }
  }

  lemma {:induction false} FitsMatch(t: seq<Token>, pieces: seq<string>)
    requires Fits(t, pieces)
    ensures MatchTokens(t, Concat(pieces))
    decreases |t|
  {
    if t != [] {
      FitsMatch(t[1..], pieces[1..]);
      var rest := Concat(pieces[1..]);
      assert Concat(pieces) == pieces[0] + rest;
      match t[0]
      case Lit(c) =>
        assert ([c] + rest)[1..] == rest;
      case AnyChar =>
        assert (pieces[0] + rest)[1..] == rest;
      case AnyRun =>
        RunAbsorbs(t, pieces[0], rest);
    }
  }

  /** The matcher agrees with the reference reading on every pattern and name. */
  lemma FnMatchIsGlob(pattern: string, name: string)
    ensures FnMatch(pattern, name) <==> Matches(pattern, name)
  {
    match Tokens(pattern)
    case None =>
    case Some(t) =>
      if MatchTokens(t, name) {
        var w := Witness(t, name);
        assert Fits(t, w) && Concat(w) == name;
      }
      if exists pieces :: Fits(t, pieces) && Concat(pieces) == name {
        var pieces :| Fits(t, pieces) && Concat(pieces) == name;
        FitsMatch(t, pieces);
      }
  }

  // ---------------------------------------------------------------------------
  // Wildcards never cross a `/`.
  // ---------------------------------------------------------------------------

  function Slashes(s: string): nat
  {
    if s == [] then 0 else (if s[0] == '/' then 1 else 0) + Slashes(s[1..])
  }

  function LiteralSlashes(t: seq<Token>): nat
  {
    if t == [] then 0 else (if t[0] == Lit('/') then 1 else 0) + LiteralSlashes(t[1..])
  }

  /** A match pairs every `/` of the name with a `/` written in the pattern. */
  lemma {:induction false} MatchKeepsSlashes(t: seq<Token>, s: string)
    requires MatchTokens(t, s)
    ensures Slashes(s) == LiteralSlashes(t)
    decreases |t|, |s|
  {
    if t != [] {
      match t[0]
      case Lit(c) => MatchKeepsSlashes(t[1..], s[1..]);
      case AnyChar => MatchKeepsSlashes(t[1..], s[1..]);
      case AnyRun =>
        if MatchTokens(t[1..], s) {
          MatchKeepsSlashes(t[1..], s);
        } else {
          MatchKeepsSlashes(t, s[1..]);
        }
    }
  }

  lemma {:induction false} NoSlashNoLiteralSlash(pattern: string)
    requires '/' !in pattern && Tokens(pattern).Some?
    ensures LiteralSlashes(Tokens(pattern).value) == 0
    decreases |pattern|
  {
    if pattern != [] {
      if pattern[0] == '\\' {
        assert pattern[1] in pattern;
        NoSlashNoLiteralSlash(pattern[2..]);
        assert ([Lit(pattern[1])] + Tokens(pattern[2..]).value)[1..] == Tokens(pattern[2..]).value;
      } else {
        NoSlashNoLiteralSlash(pattern[1..]);
        var t := Tokens(pattern[1..]).value;
        assert Tokens(pattern).value[1..] == t;
      }
    }
  }

  lemma {:induction false} NoSlashCount(s: string)
    ensures Slashes(s) == 0 <==> '/' !in s
    decreases |s|
  {
    if s != [] {
      NoSlashCount(s[1..]);
      assert s == [s[0]] + s[1..];
    }
  }

  /** A pattern without `/` matches only names without `/`: it never reaches into a subdirectory. */
  lemma SlashFreePatternMatchesNoPath(pattern: string, name: string)
    requires '/' !in pattern && FnMatch(pattern, name)
    ensures '/' !in name
  {
    var t := Tokens(pattern).value;
    MatchKeepsSlashes(t, name);
    NoSlashNoLiteralSlash(pattern);
    NoSlashCount(name);
  }

  /** How `*.c` reads: a run, then the literals `.` and `c`. */
  lemma StarDotCTokens()
    ensures Tokens("*.c") == Some([AnyRun, Lit('.'), Lit('c')])
  {
    assert Tokens("c") == Some([Lit('c')]) by {
      assert "c"[1..] == [];
      assert Tokens([]) == Some([]);
      assert [Lit('c')] + [] == [Lit('c')];
    }
    assert Tokens(".c") == Some([Lit('.'), Lit('c')]) by {
      assert ".c"[1..] == "c";
      assert [Lit('.')] + [Lit('c')] == [Lit('.'), Lit('c')];
    }
    assert "*.c"[1..] == ".c";
    assert [AnyRun] + [Lit('.'), Lit('c')] == [AnyRun, Lit('.'), Lit('c')];
  }

  /** `*.c` matches `main.c` but not `src/main.c`. */
  lemma StarDotC()
    ensures FnMatch("*.c", "main.c")
    ensures !FnMatch("*.c", "src/main.c")
  {
    var t := [AnyRun, Lit('.'), Lit('c')];
    StarDotCTokens();
    var pieces := ["main", ".", "c"];
    assert Fits(t, pieces);
    assert Concat(pieces) == "main.c" by {
      assert Concat(pieces[2..]) == "c";
      assert Concat(pieces[1..]) == ".c";
    }
    FitsMatch(t, pieces);
    assert "src/main.c"[3] == '/';
    if FnMatch("*.c", "src/main.c") {
      SlashFreePatternMatchesNoPath("*.c", "src/main.c");
    }
  }

  // ---------------------------------------------------------------------------
  // Patterns without special characters.
  // ---------------------------------------------------------------------------

  /** No `*`, `?` or `\` in s: every character stands for itself. */
  predicate Plain(s: string)
  {
    forall i | 0 <= i < |s| :: s[i] != '*' && s[i] != '?' && s[i] != '\\' && s[i] != '['
  }

  function Literal(s: string): (t: seq<Token>)
    ensures |t| == |s| && forall i | 0 <= i < |s| :: t[i] == Lit(s[i])
  {
    seq(|s|, i requires 0 <= i < |s| => Lit(s[i]))
  }

  lemma {:induction false} PlainTokens(s: string, rest: string)
    requires Plain(s)
    ensures Tokens(s + rest) == match Tokens(rest) case None => None case Some(t) => Some(Literal(s) + t)
    decreases |s|
  {
    if s == [] {
      assert s + rest == rest;
      assert Literal(s) == [];
      match Tokens(rest)
      case None =>
      case Some(t) => assert Literal(s) + t == t;
    } else {
      PlainTokens(s[1..], rest);
      assert (s + rest)[1..] == s[1..] + rest;
      assert (s + rest)[0] == s[0];
      assert Literal(s) == [Lit(s[0])] + Literal(s[1..]);
      match Tokens(rest)
      case None =>
      case Some(t) => assert Literal(s) + t == [Lit(s[0])] + (Literal(s[1..]) + t);
    }
  }

  lemma {:induction false} LiteralPrefix(s: string, t: seq<Token>, name: string)
    ensures MatchTokens(Literal(s) + t, s + name) <==> MatchTokens(t, name)
    decreases |s|
  {
    if s == [] {
      assert Literal(s) + t == t;
      assert s + name == name;
    } else {
      LiteralPrefix(s[1..], t, name);
      assert (Literal(s) + t)[0] == Lit(s[0]);
      assert (Literal(s) + t)[1..] == Literal(s[1..]) + t;
      assert (s + name)[1..] == s[1..] + name;
    }
  }

  lemma {:induction false} LiteralExact(s: string, name: string)
    ensures MatchTokens(Literal(s), name) <==> name == s
    decreases |s|
  {
    if s != [] {
      LiteralExact(s[1..], if name == [] then [] else name[1..]);
      assert Literal(s)[1..] == Literal(s[1..]);
      if name != [] {
        assert name == [name[0]] + name[1..];
        assert s == [s[0]] + s[1..];
      }
    }
  }

  /** A pattern with no special character matches its own text and nothing else. */
  lemma PlainMatchesItself(pattern: string, name: string)
    requires Plain(pattern)
    ensures FnMatch(pattern, name) <==> name == pattern
  {
    PlainTokens(pattern, "");
    assert pattern + "" == pattern;
    assert Tokens("") == Some([]);
    assert Literal(pattern) + [] == Literal(pattern);
    LiteralExact(pattern, name);
  }

  /**
   * Matching `dir/name` against `dir/pattern`, where `dir` has no special
   * character, is matching `name` against `pattern`.
   */
  lemma DirectoryPrefix(dir: string, pattern: string, name: string)
    requires Plain(dir)
    ensures FnMatch(dir + "/" + pattern, dir + "/" + name) <==> FnMatch(pattern, name)
  {
    var d := dir + "/";
    assert Plain(d) by {
      forall i | 0 <= i < |d| ensures d[i] != '*' && d[i] != '?' && d[i] != '\\' {
        if i < |dir| { assert d[i] == dir[i]; }
      }
    }
    PlainTokens(d, pattern);
    match Tokens(pattern)
    case None =>
    case Some(t) => LiteralPrefix(d, t, name);
  }

  /** A pattern starting with `./` needs a `/` in the name, so it matches no slash-free name. */
  lemma DotSlashNeedsSlash(pattern: string, name: string)
    requires '/' !in name
    ensures !FnMatch("./" + pattern, name)
  {
    assert Plain("./");
    PlainTokens("./", pattern);
    match Tokens(pattern)
    case None =>
    case Some(t) =>
      var all := Literal("./") + t;
      assert all[0] == Lit('.') && all[1] == Lit('/');
      assert all[1..][1..] == t;
      assert LiteralSlashes(all) == 1 + LiteralSlashes(t);
      if MatchTokens(all, name) {
        MatchKeepsSlashes(all, name);
        NoSlashCount(name);
      }
  }
}
