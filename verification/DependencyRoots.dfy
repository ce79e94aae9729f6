/** Turning a path referenced by a build script or Dockerfile into a dependency root, and exactly
    when the root covers everything the reference stands for. */
module DependencyRoots {
  import opened Outcomes
  import ImpactResolver

  const SPACES: set<char> := {' ', '\t', '\n', '\r'}
  const QUOTES: set<char> := {'`', '"', '\'', ','}
  const SLASH: set<char> := {'/'}
  const ROOT_FILES: set<string> := {"pyproject.toml", "uv.lock"}

  function LStrip(s: string, chars: set<char>): string {
    if s != "" && s[0] in chars then LStrip(s[1..], chars) else s
  }

  function RStrip(s: string, chars: set<char>): string {
    if s != "" && s[|s| - 1] in chars then RStrip(s[..|s| - 1], chars) else s
  }

  function Strip(s: string, chars: set<char>): string { RStrip(LStrip(s, chars), chars) }

  predicate EndsWith(s: string, p: string) { |p| <= |s| && s[|s| - |p|..] == p }

  /** split("*")[0] */
  function BeforeStar(s: string): (r: string)
    ensures r <= s && '*' !in r
  {
    if s == "" || s[0] == '*' then "" else [s[0]] + BeforeStar(s[1..])
  }

  // ----- paths -----

  function Split(s: string): (r: seq<string>)
    ensures r != [] && forall i :: 0 <= i < |r| ==> '/' !in r[i]
  {
    if s == "" then [""]
    else
      var rest := Split(s[1..]);
      if s[0] == '/' then [""] + rest else [[s[0]] + rest[0]] + rest[1..]
  }

  function Join(parts: seq<string>): string
    requires parts != []
  {
    if |parts| == 1 then parts[0] else parts[0] + "/" + Join(parts[1..])
  }

  predicate Kept(c: string) { c != "" && c != "." }

  /** pathlib drops empty and "." components. */
  function KeepParts(parts: seq<string>): seq<string> {
    if parts == [] then [] else (if Kept(parts[0]) then [parts[0]] else []) + KeepParts(parts[1..])
  }

  function PathParts(s: string): seq<string> { KeepParts(Split(s)) }

  function LastDot(name: string): (i: int)
    ensures -1 <= i < |name|
  {
    if name == "" then -1 else if name[|name| - 1] == '.' then |name| - 1 else LastDot(name[..|name| - 1])
  }

  /** Whether pathlib sees a suffix: a dot that is neither the first nor the last character. */
  predicate HasSuffix(s: string) {
    var parts := PathParts(s);
    parts != [] && 0 < LastDot(parts[|parts| - 1]) < |parts[|parts| - 1]| - 1
  }

  predicate FileLike(s: string) { HasSuffix(s) || EndsWith(s, ".sh") || EndsWith(s, ".ps1") }

  /** The parent directory as a root; none for a single component. */
  function ParentRoot(s: string): Option<string> {
    var parts := PathParts(s);
    if |parts| <= 1 then None else Some(Join(parts[..|parts| - 1]) + "/")
  }

  function Stripped(path: string): string { LStrip(Strip(Strip(path, SPACES), QUOTES), {'.', '/'}) }

  function Normalize(path: string): Option<string> { RootFor(Stripped(path)) }

  function RootFor(value: string): Option<string> {
    if value == "" || value[0] == '$' then None
    else if '/' !in value then (if value in ROOT_FILES then Some(value) else None)
    else
      RootOf(if '*' in value then RStrip(BeforeStar(value), SLASH) else value)
  }

  /** What looks like a file maps to its parent directory. */
  function RootOf(base: string): Option<string> {
    if FileLike(base) then ParentRoot(base) else Some(RStrip(base, SLASH) + "/")
  }

  // ----- references and what they stand for -----

  datatype Reference = File(path: string) | Directory(path: string) | Glob(path: string)

  predicate Good(c: string) { c != "" && c != "." && c != ".." }

  /** A relative path without empty or dot components, that does not begin with a dot or a dollar sign
      and has nothing at its ends to strip. */
  predicate Canonical(p: string) {
    && (forall i :: 0 <= i < |Split(p)| ==> Good(Split(p)[i]))
    && p != "" && p[0] !in SPACES + QUOTES + {'.', '/', '$'} && p[|p| - 1] !in SPACES + QUOTES
  }

  predicate Legal(ref: Reference) { Canonical(ref.path) && (ref.Glob? <==> '*' in ref.path) }

  /** How a reference may be written: after `./`, and for a directory before a slash. */
  function Spelled(ref: Reference, dotSlash: bool, slash: bool): string {
    (if dotSlash then "./" else "") + Ended(ref, slash)
  }

  function Ended(ref: Reference, slash: bool): string { ref.path + if slash then "/" else "" }

  /** A star stands for any characters but slashes. */
  predicate GlobMatches(p: string, s: string)
    decreases |p| + |s|
  {
    if p == "" then s == ""
    else if p[0] == '*' then GlobMatches(p[1..], s) || (s != "" && s[0] != '/' && GlobMatches(p, s[1..]))
    else s != "" && s[0] == p[0] && GlobMatches(p[1..], s[1..])
  }

  /** A glob stands for every file it matches and every file below a directory it matches. */
  predicate Denotes(ref: Reference, file: string) {
    match ref
    case File(p) => file == p
    case Directory(p) => p + "/" < file && file[|file| - 1] != '/'
    case Glob(p) => exists i :: 0 <= i <= |file| && (i == |file| || file[i] == '/') && GlobMatches(p, file[..i])
  }

  ghost predicate Covers(root: Option<string>, ref: Reference) {
    root.Some? && forall file :: Denotes(ref, file) ==> ImpactResolver.Matches(file, root.value)
  }

  // ----- lemmas about paths -----

  lemma {:induction false} JoinSplit(s: string)
    ensures Join(Split(s)) == s
  {
    if s != "" {
      JoinSplit(s[1..]);
      var rest := Split(s[1..]);
      var parts := Split(s);
      assert parts[1..] == if s[0] == '/' then rest else rest[1..];
      if s[0] == '/' {
        assert Join(parts) == "/" + Join(rest);
      }
    }
  }

  lemma {:induction false} SlashSplits(s: string)
    ensures '/' in s <==> |Split(s)| >= 2
  {
    if s != "" {
      SlashSplits(s[1..]);
      assert '/' in s <==> s[0] == '/' || '/' in s[1..];
    }
  }

  lemma {:induction false} NoDoubleSlash(s: string)
    requires forall i :: 1 <= i < |Split(s)| ==> Split(s)[i] != ""
    ensures forall i :: 0 <= i < |s| && s[i] == '/' ==> i + 1 < |s| && s[i + 1] != '/'
  {
    if s != "" {
      var rest := Split(s[1..]);
      if s[0] == '/' {
        assert rest[0] == Split(s)[1];
        assert forall i :: 1 <= i < |rest| ==> rest[i] == Split(s)[i + 1];
      } else {
        assert forall i :: 1 <= i < |rest| ==> rest[i] == Split(s)[i];
      }
      NoDoubleSlash(s[1..]);
      forall i | 0 <= i < |s| && s[i] == '/' ensures i + 1 < |s| && s[i + 1] != '/' {
        if i > 0 { assert s[1..][i - 1] == '/'; }
      }
    }
  }

  /** All components of a prefix but its last are components of the path. */
  lemma {:induction false} PrefixParts(u: string, p: string)
    requires u <= p
    ensures |Split(u)| <= |Split(p)|
    ensures forall i :: 0 <= i < |Split(u)| - 1 ==> Split(u)[i] == Split(p)[i]
  {
    if u != "" {
      PrefixParts(u[1..], p[1..]);
    }
  }

  lemma {:induction false} JoinConcat(a: seq<string>, b: seq<string>)
    requires a != [] && b != []
    ensures Join(a + b) == Join(a) + "/" + Join(b)
  {
    if |a| == 1 {
      assert (a + b)[1..] == b;
    } else {
      assert (a + b)[1..] == a[1..] + b;
      JoinConcat(a[1..], b);
    }
  }

  lemma {:induction false} KeepAllButLast(parts: seq<string>)
    requires parts != [] && forall i :: 0 <= i < |parts| - 1 ==> Kept(parts[i])
    ensures KeepParts(parts) == if Kept(parts[|parts| - 1]) then parts else parts[..|parts| - 1]
  {
    if |parts| > 1 {
      KeepAllButLast(parts[1..]);
      assert parts == [parts[0]] + parts[1..];
    }
  }

  /** The parent of a path begins the path. */
  lemma ParentIsPrefix(w: string)
    requires forall i :: 0 <= i < |Split(w)| - 1 ==> Kept(Split(w)[i])
    requires |PathParts(w)| >= 2
    ensures ParentRoot(w).Some? && ParentRoot(w).value <= w
    ensures ParentRoot(w).value[|ParentRoot(w).value| - 1] == '/'
  {
    var parts := Split(w);
    KeepAllButLast(parts);
    JoinSplit(w);
    var k := |PathParts(w)| - 1;
    assert PathParts(w)[..k] == parts[..k] && parts == parts[..k] + parts[k..];
    JoinConcat(parts[..k], parts[k..]);
  }

  lemma StripNothing(s: string, chars: set<char>)
    requires s != "" ==> s[0] !in chars && s[|s| - 1] !in chars
    ensures Strip(s, chars) == s
  {
  }

  /** Normalising looks at the path itself, however it is written. */
  lemma SpellingIsStripped(ref: Reference, dotSlash: bool, slash: bool)
    requires Canonical(ref.path)
    ensures Stripped(Spelled(ref, dotSlash, slash)) == Ended(ref, slash)
  {
    var text, rest := Spelled(ref, dotSlash, slash), Ended(ref, slash);
    StripNothing(text, SPACES);
    StripNothing(text, QUOTES);
    assert rest[0] == ref.path[0] && rest[0] !in {'.', '/'};
    assert LStrip(rest, {'.', '/'}) == rest;
    if dotSlash {
      var tail := text[1..];
      assert tail[0] == '/' && tail[1..] == rest;
      assert LStrip(tail, {'.', '/'}) == LStrip(rest, {'.', '/'});
    } else {
      assert text == rest;
    }
  }

  /** A prefix of a canonical path ends in at most one slash, and all its components but the last
      are kept. */
  lemma CanonicalPrefix(u: string, p: string)
    requires Canonical(p) && u <= p
    ensures forall i :: 0 <= i < |Split(u)| - 1 ==> Kept(Split(u)[i])
    ensures u == RStrip(u, SLASH) || u == RStrip(u, SLASH) + "/"
    ensures RStrip(RStrip(u, SLASH), SLASH) == RStrip(u, SLASH) <= p
  {
    PrefixParts(u, p);
    NoDoubleSlash(p);
    var n := |u| - 1;
    if u != "" && u[n] == '/' {
      assert n > 0;
      assert p[n - 1] == u[n - 1] && p[n] == u[n];
      assert RStrip(u, SLASH) == u[..n];
      assert u == u[..n] + "/";
    }
  }

  // ----- when the root is sound -----

  lemma FileLikeCovers(w: string, ref: Reference)
    requires forall i :: 0 <= i < |Split(w)| - 1 ==> Kept(Split(w)[i])
    requires forall file :: Denotes(ref, file) ==> w <= file
    requires |PathParts(w)| >= 2
    ensures Covers(ParentRoot(w), ref)
  {
    ParentIsPrefix(w);
    var root := ParentRoot(w).value;
    forall file | Denotes(ref, file) ensures ImpactResolver.Matches(file, root) {
      assert root <= w <= file;
    }
  }

  lemma CanonicalParts(p: string)
    requires Canonical(p)
    ensures PathParts(p) == Split(p)
    ensures RStrip(p, SLASH) == p
    ensures '/' in p <==> |Split(p)| >= 2
  {
    KeepAllButLast(Split(p));
    NoDoubleSlash(p);
    SlashSplits(p);
    assert p[|p| - 1] != '/';
  }

  lemma {:induction false} SplitSlash(p: string)
    ensures Split(p + "/") == Split(p) + [""]
  {
    if p != "" {
      SplitSlash(p[1..]);
      assert (p + "/")[1..] == p[1..] + "/";
    } else {
      assert (p + "/")[1..] == "";
    }
  }

  /** A slash at the end changes neither the components nor the directory. */
  lemma EndedParts(p: string)
    requires Canonical(p)
    ensures PathParts(p + "/") == Split(p) && RStrip(p + "/", SLASH) == p
    ensures FileLike(p + "/") <==> HasSuffix(p)
  {
    CanonicalParts(p);
    SlashKeepsParts(p);
    StripsSlash(p);
    assert !EndsWith(p + "/", ".sh") && !EndsWith(p + "/", ".ps1");
  }

  lemma SlashKeepsParts(p: string)
    requires Canonical(p)
    ensures PathParts(p + "/") == Split(p)
  {
    SplitSlash(p);
    KeepAllButLast(Split(p + "/"));
    assert (Split(p) + [""])[..|Split(p)|] == Split(p);
  }

  lemma StripsSlash(p: string)
    requires RStrip(p, SLASH) == p
    ensures RStrip(p + "/", SLASH) == p
  {
    assert (p + "/")[..|p|] == p;
  }

  /** Whether the root of a reference covers everything it stands for: always for a directory below
      another, for a top-level directory when it is written with a slash and has no suffix; for a file
      below a directory when its name looks like a file name, for a top-level file when it is one of
      the two known ones; for a glob when what precedes the first star looks like a file below a
      directory, or is a directory with its slash. */
  predicate Covered(ref: Reference, slash: bool) {
    match ref
    case Directory(p) => '/' in p || (slash && !HasSuffix(p))
    case File(p) => if '/' in p then FileLike(p) else p in ROOT_FILES
    case Glob(p) =>
      var u := BeforeStar(p);
      var w := RStrip(u, SLASH);
      '/' in p && if FileLike(w) then |PathParts(w)| >= 2 else u != w
  }

  lemma SlashedRoot(p: string)
    requires Canonical(p)
    ensures RootOf(p + "/") == if HasSuffix(p) then ParentRoot(p) else Some(p + "/")
  {
    CanonicalParts(p);
    EndedParts(p);
  }

  lemma SlashedDirectory(p: string)
    requires Legal(Directory(p))
    ensures Covers(RootOf(p + "/"), Directory(p)) <==> '/' in p || !HasSuffix(p)
  {
    SlashedRoot(p);
    if !HasSuffix(p) {
      DirectoryCoversItself(p);
    } else {
      CanonicalParts(p);
      if '/' in p { FileLikeCovers(p, Directory(p)); }
    }
  }

  lemma DirectoryCoversItself(p: string)
    ensures Covers(Some(p + "/"), Directory(p))
  {
  }

  lemma BareDirectory(p: string)
    requires Legal(Directory(p)) && '/' in p
    ensures Covers(RootOf(p), Directory(p))
  {
    CanonicalParts(p);
    if FileLike(p) { FileLikeCovers(p, Directory(p)); }
  }

  lemma TopDirectory(p: string, root: Option<string>)
    requires root.None? || root == Some(p)
    requires p != "" && p[|p| - 1] != '/'
    ensures !Covers(root, Directory(p))
  {
    assert Denotes(Directory(p), p + "/x");
  }

  lemma DirectoryIsCovered(p: string, slash: bool)
    requires Legal(Directory(p))
    ensures Covers(RootFor(Ended(Directory(p), slash)), Directory(p)) <==> Covered(Directory(p), slash)
  {
    var value := Ended(Directory(p), slash);
    if slash {
      SlashedDirectory(p);
      assert value[|p|] == '/' && '*' !in value;
    } else if '/' in p {
      BareDirectory(p);
      assert value == p;
    } else {
      assert value == p;
      TopDirectory(p, RootFor(value));
    }
  }

  lemma FileIsCovered(p: string)
    requires Legal(File(p))
    ensures Covers(RootFor(p), File(p)) <==> Covered(File(p), false)
  {
    CanonicalParts(p);
    if '/' in p && FileLike(p) {
      FileLikeCovers(p, File(p));
    } else {
      assert Denotes(File(p), p);
    }
  }

  lemma {:induction false} MatchBegins(p: string, s: string)
    requires GlobMatches(p, s)
    ensures BeforeStar(p) <= s
  {
    if p != "" && p[0] != '*' {
      MatchBegins(p[1..], s[1..]);
      assert s == [s[0]] + s[1..];
    }
  }

  lemma GlobBegins(p: string, file: string)
    requires Denotes(Glob(p), file)
    ensures BeforeStar(p) <= file
  {
    var i :| 0 <= i <= |file| && (i == |file| || file[i] == '/') && GlobMatches(p, file[..i]);
    MatchBegins(p, file[..i]);
  }

  /** A file the glob matches: every star replaced by a letter. */
  function Filled(p: string): (r: string)
    ensures |r| == |p|
  {
    if p == "" then "" else [if p[0] == '*' then 'x' else p[0]] + Filled(p[1..])
  }

  lemma {:induction false} FilledMatches(p: string)
    ensures GlobMatches(p, Filled(p))
    ensures BeforeStar(p) <= Filled(p)
    ensures '*' in p ==> |BeforeStar(p)| < |p| && Filled(p)[|BeforeStar(p)|] == 'x'
  {
    if p != "" {
      FilledMatches(p[1..]);
      var s := Filled(p);
      assert s[1..] == Filled(p[1..]);
      assert p[0] == '*' ==> GlobMatches(p, s[1..]);
      assert p == [p[0]] + p[1..];
    }
  }

  lemma FilledIsDenoted(p: string)
    ensures Denotes(Glob(p), Filled(p))
  {
    FilledMatches(p);
    var file := Filled(p);
    assert file[..|file|] == file;
  }

  lemma GlobIsCovered(p: string)
    requires Legal(Glob(p))
    ensures Covers(RootFor(p), Glob(p)) <==> Covered(Glob(p), false)
  {
    var u := BeforeStar(p);
    var w := RStrip(u, SLASH);
    RootForGlob(p, w);
    if '/' in p { GlobBelow(p, u, w); }
  }

  lemma RootForGlob(p: string, w: string)
    requires p != "" && p[0] != '$' && '*' in p && w == RStrip(BeforeStar(p), SLASH)
    ensures RootFor(p) == if '/' in p then RootOf(w) else None
  {
    if '/' !in p { StarIsNoRootFile(p); }
  }

  lemma StarIsNoRootFile(p: string)
    requires '*' in p
    ensures p !in ROOT_FILES
  {
    assert '*' !in "pyproject.toml" && '*' !in "uv.lock";
  }

  lemma GlobBelow(p: string, u: string, w: string)
    requires Legal(Glob(p)) && u == BeforeStar(p) && w == RStrip(u, SLASH)
    ensures Covers(RootOf(w), Glob(p)) <==> if FileLike(w) then |PathParts(w)| >= 2 else u != w
  {
    CanonicalPrefix(u, p);
    CanonicalPrefix(w, p);
    GlobRoot(p, u, w);
  }

  lemma GlobRoot(p: string, u: string, w: string)
    requires u == BeforeStar(p) && '*' in p && (u == w || u == w + "/") && RStrip(w, SLASH) == w
    requires forall i :: 0 <= i < |Split(w)| - 1 ==> Kept(Split(w)[i])
    ensures Covers(RootOf(w), Glob(p)) <==> if FileLike(w) then |PathParts(w)| >= 2 else u != w
  {
    forall file | Denotes(Glob(p), file) ensures u <= file { GlobBegins(p, file); }
    if FileLike(w) {
      if |PathParts(w)| >= 2 {
        forall file | Denotes(Glob(p), file) ensures w <= file { assert w <= u <= file; }
        FileLikeCovers(w, Glob(p));
      }
    } else if u == w {
      StarInsideComponent(p);
    }
  }

  lemma StarInsideComponent(p: string)
    requires '*' in p
    ensures !Covers(Some(BeforeStar(p) + "/"), Glob(p))
  {
    var u, file := BeforeStar(p), Filled(p);
    FilledMatches(p);
    FilledIsDenoted(p);
    assert file[|u|] == 'x' && (u + "/")[|u|] == '/';
  }

  /** The root of a reference, however it is written, covers all it stands for exactly when `Covered`
      says so. */
  lemma CoveredExactlyWhen(ref: Reference, dotSlash: bool, slash: bool)
    requires Legal(ref) && (slash ==> ref.Directory?)
    ensures Covers(Normalize(Spelled(ref, dotSlash, slash)), ref) <==> Covered(ref, slash)
  {
    SpellingIsStripped(ref, dotSlash, slash);
    if !slash { assert Ended(ref, slash) == ref.path; }
    match ref
    case File(p) => FileIsCovered(p);
    case Directory(p) => DirectoryIsCovered(p, slash);
    case Glob(p) => GlobIsCovered(p);
  }

  // ----- no missed rebuild -----

  /** A changed file that a reference of group `g` stands for does not run the group and its stages. */
  ghost predicate Missed(cfg: ImpactResolver.Config, deps: ImpactResolver.Dependencies, g: string,
                         ref: Reference, root: Option<string>, file: string, changed: set<string>) {
    && ImpactResolver.WellFormed(cfg) && g in cfg.groups && g in deps && (root.Some? ==> root.value in deps[g])
    && Denotes(ref, file) && file in changed && !(changed <= cfg.safeSkip)
    && !(&& g in ImpactResolver.BuildsFor(cfg, deps, changed)
         && forall i :: 0 <= i < |cfg.stages| && g in cfg.stages[i].required ==>
              cfg.stages[i].name in ImpactResolver.StagesFor(cfg, deps, changed))
  }

  ghost predicate NeverMissed(ref: Reference, root: Option<string>) {
    forall cfg, deps, g, file, changed :: !Missed(cfg, deps, g, ref, root, file, changed)
  }

  lemma CoversNeverMisses(ref: Reference, root: Option<string>)
    requires Covers(root, ref)
    ensures NeverMissed(ref, root)
  {
    forall cfg, deps, g, file, changed
      | ImpactResolver.WellFormed(cfg) && g in cfg.groups && g in deps && root.value in deps[g]
        && Denotes(ref, file) && file in changed && !(changed <= cfg.safeSkip)
      ensures !Missed(cfg, deps, g, ref, root, file, changed)
    {
      assert ImpactResolver.Matches(file, root.value);
      ImpactResolver.MatchedGroupsRun(cfg, deps, changed, g);
    }
  }

  /** Two groups, nothing shared, skipped or broad. */
  const PLAIN := ImpactResolver.Config(["g", "h"], [], "h", [], {}, {})

  lemma UnmatchedIsMissed(ref: Reference, root: Option<string>, file: string)
    requires Denotes(ref, file) && (root.Some? ==> !ImpactResolver.Matches(file, root.value))
    ensures !NeverMissed(ref, root)
  {
    var own := if root.Some? then {root.value} else {};
    var deps := map["g" := own, "h" := {file}];
    var changed := {file};
    assert ImpactResolver.GroupHit(deps["h"], changed) by { assert ImpactResolver.Matches(file, file); }
    assert !ImpactResolver.GroupHit(deps["g"], changed);
    assert ImpactResolver.Hits(deps, changed) == {"h"};
    assert ImpactResolver.Decide(PLAIN, deps, false, changed) == ImpactResolver.Selected({"h"});
    assert "g" !in ImpactResolver.BuildsFor(PLAIN, deps, changed);
    assert Missed(PLAIN, deps, "g", ref, root, file, changed);
  }

  lemma Denoted(ref: Reference) returns (file: string)
    ensures Denotes(ref, file)
  {
    match ref
    case File(p) => file := p;
    case Directory(p) => file := p + "/x";
    case Glob(p) =>
      FilledIsDenoted(p);
      file := Filled(p);
  }

  /** A group that depends on the root of a reference is built, and its stages run, for every changed
      file the reference stands for, whatever the tables, the other roots and the other changes, as
      long as not all changes are safe-skip files; if and only if the reference is covered. */
  lemma NeverMissedExactlyWhen(ref: Reference, dotSlash: bool, slash: bool)
    requires Legal(ref) && (slash ==> ref.Directory?)
    ensures NeverMissed(ref, Normalize(Spelled(ref, dotSlash, slash))) <==> Covered(ref, slash)
  {
    var root := Normalize(Spelled(ref, dotSlash, slash));
    CoveredExactlyWhen(ref, dotSlash, slash);
    if Covers(root, ref) {
      CoversNeverMisses(ref, root);
    } else if root.None? {
      var file := Denoted(ref);
      UnmatchedIsMissed(ref, root, file);
    } else {
      var file :| Denotes(ref, file) && !ImpactResolver.Matches(file, root.value);
      UnmatchedIsMissed(ref, root, file);
    }
  }

  // ----- references that begin with a dot -----

  lemma {:induction false} LStripFirst(s: string, chars: set<char>)
    ensures LStrip(s, chars) != "" ==> LStrip(s, chars)[0] !in chars
  {
    if s != "" && s[0] in chars { LStripFirst(s[1..], chars); }
  }

  lemma {:induction false} RStripKeepsFirst(s: string, chars: set<char>)
    requires s != "" && s[0] !in chars
    ensures RStrip(s, chars) != "" && RStrip(s, chars)[0] == s[0]
  {
    if s[|s| - 1] in chars { RStripKeepsFirst(s[..|s| - 1], chars); }
  }

  lemma RootBegins(base: string)
    requires (base != "" ==> base[0] !in {'.', '/'}) && RootOf(base).Some?
    ensures RootOf(base).value != "" && RootOf(base).value[0] != '.'
  {
    if base != "" {
      RStripKeepsFirst(base, SLASH);
      var parts := Split(base);
      assert parts[0] != "" && parts[0][0] == base[0];
      assert PathParts(base)[0] == parts[0];
    }
  }

  lemma NormalizeBegins(path: string)
    requires Normalize(path).Some?
    ensures Normalize(path).value != "" && Normalize(path).value[0] != '.'
  {
    var stripped := Strip(Strip(path, SPACES), QUOTES);
    LStripFirst(stripped, {'.', '/'});
    var value := LStrip(stripped, {'.', '/'});
    if '/' in value {
      var u := BeforeStar(value);
      if '*' in value {
        if u != "" { RStripKeepsFirst(u, SLASH); }
        RootBegins(RStrip(u, SLASH));
      } else {
        RootBegins(value);
      }
    }
  }

  /** A reference whose first component is hidden, such as one below `.github`, is never covered: its
      dot is stripped as if it were `./`, and no file it stands for begins like the root that is left. */
  lemma HiddenIsNeverCovered(ref: Reference, dotSlash: bool, slash: bool)
    requires |ref.path| >= 2 && ref.path[0] == '.' && ref.path[1] !in {'.', '/'}
    ensures !Covers(Normalize(Spelled(ref, dotSlash, slash)), ref)
  {
    var text := Spelled(ref, dotSlash, slash);
    var file := Denoted(ref);
    assert file[0] == '.' by {
      if ref.Glob? { GlobBegins(ref.path, file); }
    }
    if Normalize(text).Some? { NormalizeBegins(text); }
  }
}
