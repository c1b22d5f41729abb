/**
 * dirname() and basename() of <libgen.h>, as section XSH of POSIX.1-2017
 * describes them. Where POSIX leaves a leading `//` implementation-defined,
 * this model treats it like any other run of slashes.
 */
module PathSplit {

  predicate AllSlashes(s: string)
  {
    forall i | 0 <= i < |s| :: s[i] == '/'
  }

  /** Every `/` of s belongs to its trailing run of slashes. */
  predicate NoInnerSlash(s: string)
  {
    forall i, j | 0 <= i < j < |s| && s[i] == '/' :: s[j] == '/'
  }

  /** s without its trailing slashes. */
  function TrimSlashes(s: string): (r: string)
    ensures r <= s
    ensures r == [] || r[|r| - 1] != '/'
    ensures AllSlashes(s[|r|..])
    decreases |s|
  {
    if s != [] && s[|s| - 1] == '/' then
      var r := TrimSlashes(s[..|s| - 1]);
      assert s[|r|..] == s[..|s| - 1][|r|..] + ['/'];
      r
    else s
  }

  /** s without its trailing non-slash characters. */
  function TrimName(s: string): (r: string)
    ensures r <= s
    ensures r == [] || r[|r| - 1] == '/'
    ensures '/' !in s[|r|..]
    decreases |s|
  {
    if s != [] && s[|s| - 1] != '/' then
      var r := TrimName(s[..|s| - 1]);
      assert s[|r|..] == s[..|s| - 1][|r|..] + [s[|s| - 1]];
      r
    else s
  }

  /** basename(path): the last component, with trailing slashes removed. */
  function Basename(path: string): (r: string)
    ensures r != []
    ensures r == "/" || '/' !in r
  {
    if path == [] then "."
    else
      var t := TrimSlashes(path);
      if t == [] then "/"
      else
        var b := t[|TrimName(t)|..];
        assert b != [] by { assert t[|t| - 1] in b; }
        b
  }

  /** dirname(path): everything before the last component, with trailing slashes removed. */
  function Dirname(path: string): (r: string)
    ensures r != []
    ensures r == "/" || r[|r| - 1] != '/'
  {
    if path == [] then "."
    else
      var t := TrimSlashes(path);
      if t == [] then "/"
      else
        var head := TrimName(t);
        if head == [] then "."
        else
          var d := TrimSlashes(head);
          if d == [] then "/" else d
  }

  lemma {:induction false} TrimSlashesOf(x: string, s: string)
    requires x == [] || x[|x| - 1] != '/'
    requires AllSlashes(s)
    ensures TrimSlashes(x + s) == x
    decreases |s|
  {
    if s == [] {
      assert x + s == x;
    } else {
      assert (x + s)[..|x + s| - 1] == x + s[..|s| - 1];
      TrimSlashesOf(x, s[..|s| - 1]);
    }
  }

  lemma {:induction false} TrimNameOf(x: string, s: string)
    requires x == [] || x[|x| - 1] == '/'
    requires '/' !in s
    ensures TrimName(x + s) == x
    decreases |s|
  {
    if s == [] {
      assert x + s == x;
    } else {
      assert (x + s)[..|x + s| - 1] == x + s[..|s| - 1];
      assert s[|s| - 1] in s;
      var init := s[..|s| - 1];
      assert '/' !in init by {
        forall i | 0 <= i < |init| ensures init[i] != '/' { assert s[i] in s; }
      }
      TrimNameOf(x, s[..|s| - 1]);
    }
  }

  /** Joining a directory and a name with one `/` and splitting again gives both back. */
  lemma SplitJoin(dir: string, name: string)
    requires dir != [] && dir[|dir| - 1] != '/'
    requires name != [] && '/' !in name
    ensures Dirname(dir + "/" + name) == dir
    ensures Basename(dir + "/" + name) == name
  {
    var p := dir + "/" + name;
    assert p[|p| - 1] == name[|name| - 1];
    assert name[|name| - 1] in name;
    assert TrimSlashes(p) == p;
    TrimNameOf(dir + "/", name);
    assert TrimName(p) == dir + "/";
    assert p[|dir + "/"|..] == name;
    TrimSlashesOf(dir, "/");
  }

  /**
   * The path names a directory part: it has a `/` before its trailing slashes,
   * or it is made of slashes only.
   */
  predicate HasDirectory(path: string)
  {
    path != [] && (AllSlashes(path) || !NoInnerSlash(path))
  }

  /** Whether a path has a directory part is read off its last component's position. */
  lemma DirectoryPartAt(path: string)
    requires TrimSlashes(path) != []
    ensures HasDirectory(path) <==> TrimName(TrimSlashes(path)) != []
  {
  }

  lemma PrefixSplit(r: string, s: string)
    requires r <= s
    ensures s == r + s[|r|..]
  {
  }

  lemma BasenameAt(path: string)
    requires TrimSlashes(path) != []
    ensures Basename(path) == TrimSlashes(path)[|TrimName(TrimSlashes(path))|..]
  {
  }

  lemma DirnameAt(path: string)
    requires TrimSlashes(path) != [] && TrimName(TrimSlashes(path)) != []
    ensures var d := TrimSlashes(TrimName(TrimSlashes(path)));
      Dirname(path) == if d == [] then "/" else d
  {
  }

  lemma PartsAt(path: string)
    ensures var t := TrimSlashes(path); var head := TrimName(t); var d := TrimSlashes(head);
      path == d + head[|d|..] + t[|head|..] + path[|t|..]
  {
    var t := TrimSlashes(path);
    var head := TrimName(t);
    var d := TrimSlashes(head);
    PrefixSplit(t, path);
    PrefixSplit(head, t);
    PrefixSplit(d, head);
  }

  /** Joining the parts back; a root dirname stands for the first slash of the run after it. */
  lemma Glue(path: string, d: string, m: string, dn: string, s1: string, b: string, s2: string)
    requires path == d + m + b + s2
    requires d == [] ==> dn == "/" && m == "/" + s1
    requires d != [] ==> dn == d && m == s1 && m != []
    ensures path == dn + s1 + b + s2
    ensures dn == "/" || s1 != []
  {
  }

  /** Trimming the slashes off a string that ends in `/` leaves a strictly shorter one. */
  lemma ShorterTrim(head: string)
    requires head != [] && head[|head| - 1] == '/'
    ensures |TrimSlashes(head)| < |head|
  {
  }

  lemma ReassembleAt(path: string) returns (s1: string, s2: string)
    requires TrimSlashes(path) != [] && TrimName(TrimSlashes(path)) != []
    ensures AllSlashes(s1) && AllSlashes(s2) && path == Dirname(path) + s1 + Basename(path) + s2
    ensures Dirname(path) == "/" || s1 != []
  {
    var t := TrimSlashes(path);
    var head := TrimName(t);
    var d := TrimSlashes(head);
    var b := t[|head|..];
    s2 := path[|t|..];
    var m := head[|d|..];
    assert AllSlashes(m) && AllSlashes(s2);
    assert Basename(path) == b by { BasenameAt(path); }
    assert path == d + m + b + s2 by { PartsAt(path); }
    assert Dirname(path) == if d == [] then "/" else d by { DirnameAt(path); }
    if d == [] {
      s1 := m[1..];
      assert m == "/" + s1 by { assert m[0] == '/'; }
    } else {
      s1 := m;
      assert m != [] by { ShorterTrim(head); }
    }
    Glue(path, d, m, Dirname(path), s1, b, s2);
  }

  /**
   * A path with a directory part is its dirname, a run of slashes, its
   * basename and a run of slashes; the first run is empty only after a root
   * dirname, whose `/` separates the two.
   */
  lemma ReassembleDirectory(path: string)
    requires HasDirectory(path) && !AllSlashes(path)
    ensures exists s1, s2 ::
      && AllSlashes(s1) && AllSlashes(s2)
      && (Dirname(path) == "/" || s1 != [])
      && path == Dirname(path) + s1 + Basename(path) + s2
  {
    var t := TrimSlashes(path);
    assert path == t + path[|t|..];
    DirectoryPartAt(path);
    var s1, s2 := ReassembleAt(path);
  }

  /** A path without a directory part is its basename followed by a run of slashes. */
  lemma ReassembleName(path: string)
    requires !HasDirectory(path) && path != []
    ensures exists s2 :: AllSlashes(s2) && path == Basename(path) + s2
  {
    var t := TrimSlashes(path);
    var s2 := path[|t|..];
    assert path == t + s2;
    assert t != [];
    DirectoryPartAt(path);
    assert path == t[|TrimName(t)|..] + s2;
  }

  /** A path without a directory part has "." as its dirname. */
  lemma NoDirectoryDirnameDot(path: string)
    requires !HasDirectory(path)
    ensures Dirname(path) == "."
  {
  }
}
