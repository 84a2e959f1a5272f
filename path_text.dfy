/** Path text operations the pipeline script relies on: Python's
    `os.path.basename`, `os.path.join` and `str.split(".")[0]`, the
    shell's `basename NAME SUFFIX`, and which texts the shell passes on
    unchanged. Paths are plain strings; nothing here touches a file
    system. */
module PathText {

  /** `s.rfind(c)`: the index of the last `c` in `s`, or -1 if none. */
  function RFind(s: string, c: char): (r: int)
    ensures -1 <= r < |s|
    ensures r >= 0 ==> s[r] == c
    ensures forall k :: r < k < |s| ==> s[k] != c
  {
    if s == [] then -1
    else if s[|s| - 1] == c then |s| - 1
    else RFind(s[..|s| - 1], c)
  }

  /** `os.path.basename(path)` on POSIX, which is `path[path.rfind('/') + 1:]`:
      the text after the last '/' (all of `path` when it has none, "" when
      it ends in '/'). */
  function Basename(path: string): (name: string)
    ensures '/' !in name
    ensures |name| <= |path| && path[|path| - |name|..] == name
    ensures |name| < |path| ==> path[|path| - |name| - 1] == '/'
  {
    path[RFind(path, '/') + 1..]
  }

  /** `s.split(".")[0]`: the text before the first '.', or all of `s`.
      `split` always yields at least one field, so this never fails. */
  function BeforeFirstDot(s: string): (field: string)
    ensures '.' !in field
    ensures |field| <= |s| && s[..|field|] == field
    ensures |field| < |s| ==> s[|field|] == '.'
  {
    if s == [] || s[0] == '.' then [] else [s[0]] + BeforeFirstDot(s[1..])
  }

  /** `os.path.join(a, b)` for two components on POSIX: an absolute `b`
      replaces `a`; otherwise `b` follows `a`, separated by exactly one
      '/' (none is added when `a` is empty or already ends in '/'). */
  function Join(a: string, b: string): string
  {
    if b != [] && b[0] == '/' then b
    else if a == [] || a[|a| - 1] == '/' then a + b
    else a + "/" + b
  }

  lemma JoinShape(a: string, b: string)
    ensures var r := Join(a, b);
      && |b| <= |r| && r[|r| - |b|..] == b
      && (b != [] && b[0] == '/' ==> r == b)
      && ((b == [] || b[0] != '/') ==>
            |a| + |b| <= |r| <= |a| + 1 + |b| && r[..|a|] == a &&
            (a == [] || r[|r| - |b| - 1] == '/'))
      && ((b == [] || b[0] != '/') && (a == [] || a[|a| - 1] == '/') ==> r == a + b)
  {
  }

  /** `path` lies inside directory `dir`: it starts with `dir`'s text. */
  predicate IsUnder(path: string, dir: string)
  {
    |dir| <= |path| && path[..|dir|] == dir
  }

  /** Joining onto a directory that already ends in '/' just appends. */
  lemma JoinUnderDir(dir: string, name: string)
    requires dir != [] && dir[|dir| - 1] == '/'
    requires name == [] || name[0] != '/'
    ensures Join(dir, name) == dir + name
  {
  }

  function StripTrailingSlashes(path: string): (r: string)
    ensures |r| <= |path| && path[..|r|] == r
    ensures r == [] || r[|r| - 1] != '/'
    ensures forall k :: |r| <= k < |path| ==> path[k] == '/'
  {
    if path != [] && path[|path| - 1] == '/' then StripTrailingSlashes(path[..|path| - 1])
    else path
  }

  /** The shell command `basename PATH SUFFIX`: drop trailing slashes,
      keep the last component, and remove SUFFIX from its end unless the
      suffix is the whole component. A path of slashes only gives "/". */
  function ShellBasename(path: string, suffix: string): string
  {
    var trimmed := StripTrailingSlashes(path);
    if trimmed == [] then (if path == [] then [] else "/")
    else DropSuffix(Basename(trimmed), suffix)
  }

  /** The suffix removal of `basename`: only a proper, non-empty suffix goes. */
  function DropSuffix(name: string, suffix: string): (r: string)
    ensures r == name || (r != [] && suffix != [] && name == r + suffix)
  {
    if suffix != [] && |suffix| < |name| && name[|name| - |suffix|..] == suffix
    then name[..|name| - |suffix|]
    else name
  }

  /** The last component of a path is what follows its final directory. */
  lemma BasenameAfterDir(dir: string, name: string)
    requires dir == [] || dir[|dir| - 1] == '/'
    requires '/' !in name
    ensures Basename(dir + name) == name
  {
    var p := dir + name;
    assert RFind(p, '/') == |dir| - 1;
    assert p[|dir|..] == name;
  }

  /** `basename DIR/STEM SUFFIX` gives STEM back, for a non-empty STEM
      without '/': the inversion a rule uses to recover its wildcard from
      its own output path. */
  lemma ShellBasenameStripsSuffix(dir: string, stem: string, suffix: string)
    requires dir == [] || dir[|dir| - 1] == '/'
    requires stem != [] && '/' !in stem && '/' !in suffix
    ensures ShellBasename(dir + stem + suffix, suffix) == stem
  {
    var name := stem + suffix;
    var path := dir + name;
    assert dir + stem + suffix == path;
    assert '/' !in name;
    assert path[|path| - 1] == name[|name| - 1];
    KeepsUnslashedEnd(path);
    BasenameAfterDir(dir, name);
    DropSuffixOf(stem, suffix);
  }

  lemma DropSuffixOf(stem: string, suffix: string)
    requires stem != []
    ensures DropSuffix(stem + suffix, suffix) == stem
  {
    var name := stem + suffix;
    if suffix != [] {
      assert name[|name| - |suffix|..] == suffix;
      assert name[..|name| - |suffix|] == stem;
    }
  }

  /** The POSIX portable filename characters and '/': none of them is
      special to the shell, so an unquoted word made of them reaches a
      command unchanged (no splitting, quoting, expansion, globbing or
      redirection). Other characters may or may not be special; the model
      does not tell them apart. */
  predicate PlainChar(c: char)
  {
    || 'a' <= c <= 'z' || 'A' <= c <= 'Z' || '0' <= c <= '9'
    || c == '.' || c == '_' || c == '-' || c == '/'
  }

  predicate PlainText(s: string)
  {
    forall k :: 0 <= k < |s| ==> PlainChar(s[k])
  }

  /** Text that the shell passes, unquoted, as exactly one argument that a
      command does not read as an option. */
  predicate ShellWord(s: string)
  {
    s != [] && s[0] != '-' && PlainText(s)
  }

  /** Text that keeps its literal value inside double quotes: no '"' to end
      the quoting, and no '$', '`' or '\\' for the shell to expand. */
  predicate QuoteInert(s: string)
  {
    forall k :: 0 <= k < |s| ==> s[k] != '"' && s[k] != '`' && s[k] != '$' && s[k] != '\\'
  }

  lemma PlainTextAppend(a: string, b: string)
    ensures PlainText(a + b) <==> PlainText(a) && PlainText(b)
  {
    if PlainText(a) && PlainText(b) {
      forall k | 0 <= k < |a + b| ensures PlainChar((a + b)[k]) {
        if k >= |a| {
          assert (a + b)[k] == b[k - |a|];
        }
      }
    }
    if PlainText(a + b) {
      forall k | 0 <= k < |a| ensures PlainChar(a[k]) {
        assert (a + b)[k] == a[k];
      }
      forall k | 0 <= k < |b| ensures PlainChar(b[k]) {
        assert (a + b)[|a| + k] == b[k];
      }
    }
  }

  lemma KeepsUnslashedEnd(path: string)
    requires path != [] && path[|path| - 1] != '/'
    ensures StripTrailingSlashes(path) == path
  {
  }
}
