/**
  Adding one parent folder to a displayed file name: the string steps in the first loop of
  `OrchestratorEditor::disambiguate_filenames` (`src/editor/editor.cpp`).
 */
module FileNames {
  // ----- String operations of the engine -----

  /** `rfind`: the last position of a character, -1 if there is none. */
  function LastIndex(s: string, c: char): (k: int)
    ensures -1 <= k < |s|
  {
    if s == [] then -1
    else if s[|s| - 1] == c then |s| - 1
    else LastIndex(s[..|s| - 1], c)
  }

  lemma {:induction false} LastIndexIs(s: string, c: char)
    ensures LastIndex(s, c) >= 0 ==> s[LastIndex(s, c)] == c
    ensures forall i :: LastIndex(s, c) < i < |s| ==> s[i] != c
  {
    if s != [] && s[|s| - 1] != c {
      LastIndexIs(s[..|s| - 1], c);
    }
  }

  lemma LastIndexAt(s: string, c: char, k: int)
    requires -1 <= k < |s| && (k >= 0 ==> s[k] == c) && forall i :: k < i < |s| ==> s[i] != c
    ensures LastIndex(s, c) == k
  {
    LastIndexIs(s, c);
  }

  /** `rfind` with a start position; a negative one means the end. */
  function LastIndexFrom(s: string, c: char, from: int): int {
    if from < 0 || from >= |s| then LastIndex(s, c) else LastIndex(s[..from + 1], c)
  }

  function Max(a: int, b: int): int {
    if a > b then a else b
  }

  /** `get_basename`: everything before the last dot of the last path element. */
  function Basename(s: string): string {
    var dot := LastIndex(s, '.');
    if dot < 0 || dot < Max(LastIndex(s, '/'), LastIndex(s, '\\')) then s else s[..dot]
  }

  /** `trim_suffix("/")` */
  function TrimSlash(s: string): string {
    if s != [] && s[|s| - 1] == '/' then s[..|s| - 1] else s
  }

  function WithoutRes(path: string): string {
    if "res://" <= path then path[6..] else path
  }

  /** What the code compares of a name or a path: no extension, no slash at the end. */
  function Shown(s: string): string {
    TrimSlash(Basename(s))
  }

  // ----- Names that are path suffixes -----

  /** `n` is the path, or what follows one of its slashes. */
  predicate IsSuffix(n: string, p: string) {
    n == p || (|n| < |p| && p[|p| - |n|..] == n && p[|p| - |n| - 1] == '/')
  }

  /** Something is left of the name without its extension. */
  predicate HasBase(n: string) {
    Basename(n) != ""
  }

  /** What stands before the name and its slash. */
  function Before(n: string, p: string): string
    requires IsSuffix(n, p) && n != p
  {
    p[..|p| - |n| - 1]
  }

  /** The name with one more parent folder. */
  function Extended(n: string, p: string): string
    requires IsSuffix(n, p)
  {
    if n == p then p
    else
      var q := Before(n, p);
      q[LastIndex(q, '/') + 1..] + "/" + n
  }

  function Slashes(s: string): nat {
    if s == [] then 0 else Slashes(s[..|s| - 1]) + if s[|s| - 1] == '/' then 1 else 0
  }

  lemma {:induction false} SlashesJoin(s: string, t: string)
    ensures Slashes(s + t) == Slashes(s) + Slashes(t)
  {
    if t == [] {
      assert s + t == s;
    } else {
      assert (s + t)[..|s + t| - 1] == s + t[..|t| - 1];
      SlashesJoin(s, t[..|t| - 1]);
    }
  }

  lemma {:induction false} NoSlashes(s: string)
    requires forall i :: 0 <= i < |s| ==> s[i] != '/'
    ensures Slashes(s) == 0
  {
    if s != [] {
      NoSlashes(s[..|s| - 1]);
    }
  }

  lemma SuffixSplit(n: string, p: string)
    requires IsSuffix(n, p) && n != p
    ensures p == Before(n, p) + "/" + n
  {
  }

  lemma OneSlash()
    ensures Slashes("/") == 1
  {
    assert Slashes("/"[..0]) == 0;
  }

  /** The folder in front of the name, in a path written as its parts. */
  lemma ExtendedParts(q: string, n: string) returns (rest: string, folder: string)
    ensures q == rest + folder && (rest == [] || rest[|rest| - 1] == '/') && Slashes(folder) == 0
    ensures IsSuffix(n, q + "/" + n) && n != q + "/" + n
    ensures Extended(n, q + "/" + n) == folder + "/" + n
    ensures q + "/" + n == rest + (folder + "/" + n)
  {
    hide *;
    rest, folder := LastFolder(q);
    JoinParts(q, n);
    ExtendedAt(n, q + "/" + n);
    JoinFour(rest, folder, n);
  }

  lemma LastFolder(q: string) returns (rest: string, folder: string)
    ensures q == rest + folder && (rest == [] || rest[|rest| - 1] == '/') && Slashes(folder) == 0
    ensures folder == q[LastIndex(q, '/') + 1..]
  {
    hide *;
    var k := LastIndex(q, '/') + 1;
    LastIndexIs(q, '/');
    rest, folder := q[..k], q[k..];
    assert forall i :: 0 <= i < |folder| ==> folder[i] == q[k + i];
    NoSlashes(folder);
  }

  lemma ExtendedAt(n: string, p: string)
    requires IsSuffix(n, p) && n != p
    ensures Extended(n, p) == Before(n, p)[LastIndex(Before(n, p), '/') + 1..] + "/" + n
  {
    hide Before, LastIndex, IsSuffix;
  }

  lemma JoinParts(q: string, n: string)
    ensures var p := q + "/" + n; IsSuffix(n, p) && n != p && Before(n, p) == q
  {
    var p := q + "/" + n;
    assert p[|p| - |n|..] == n;
    assert p[..|p| - |n| - 1] == q;
  }

  lemma JoinFour(rest: string, folder: string, n: string)
    ensures rest + folder + "/" + n == rest + (folder + "/" + n)
  {
  }

  lemma SuffixOfJoin(rest: string, n: string)
    requires rest == [] || rest[|rest| - 1] == '/'
    ensures IsSuffix(n, rest + n)
  {
    assert (rest + n)[|rest + n| - |n|..] == n;
    if rest == [] {
      assert rest + n == n;
    }
  }

  /** The extended name is the next longer suffix of the path, with one more slash. */
  lemma ExtendedIsNext(n: string, p: string)
    requires IsSuffix(n, p)
    ensures IsSuffix(Extended(n, p), p)
    ensures n != p ==> Slashes(Extended(n, p)) == Slashes(n) + 1 && IsSuffix(n, Extended(n, p))
  {
    if n != p {
      hide *;
      SuffixSplit(n, p);
      var rest, folder := ExtendedParts(Before(n, p), n);
      OneSlash();
      SlashesJoin(folder, "/");
      SlashesJoin(folder + "/", n);
      SuffixOfJoin(rest, folder + "/" + n);
      SuffixOfJoin(folder + "/", n);
    }
  }

  predicate EndsWith(s: string, n: string) {
    |n| <= |s| && s[|s| - |n|..] == n
  }

  lemma EndsWithJoin(a: string, n: string)
    ensures EndsWith(a + n, n) && EndsWith(n, n)
  {
  }

  lemma EndsWithTrans(a: string, b: string, c: string)
    requires EndsWith(a, b) && EndsWith(b, c)
    ensures EndsWith(a, c)
  {
    assert a[|a| - |c|..] == a[|a| - |b|..][|b| - |c|..];
  }

  /** Of two suffixes of one path, the shorter is a suffix of the longer. */
  lemma SuffixOfSuffix(a: string, b: string, p: string)
    requires IsSuffix(a, p) && IsSuffix(b, p) && |a| <= |b|
    ensures IsSuffix(a, b)
  {
    assert b == p[|p| - |b|..];
    assert a == p[|p| - |a|..];
    if a != b {
      assert |a| < |b|;
      assert b[|b| - |a|..] == a;
      assert b[|b| - |a| - 1] == p[|p| - |a| - 1];
    }
  }

  /** A longer suffix has more slashes. */
  lemma SuffixSlashes(a: string, b: string)
    requires IsSuffix(a, b) && a != b
    ensures Slashes(a) < Slashes(b)
  {
    hide *;
    SuffixSplit(a, b);
    SlashesJoin(Before(a, b) + "/", a);
    SlashesJoin(Before(a, b), "/");
    OneSlash();
  }

  lemma SuffixTrans(a: string, b: string, c: string)
    requires IsSuffix(a, b) && IsSuffix(b, c)
    ensures IsSuffix(a, c)
  {
    if a != b && b != c {
      assert c[|c| - |b|..] == b;
      assert c[|c| - |a|..] == b[|b| - |a|..];
      assert c[|c| - |a| - 1] == b[|b| - |a| - 1];
    }
  }

  /** Nothing lies between a name and the name with one more folder. */
  lemma NothingBetween(x: string, n: string, p: string)
    requires IsSuffix(n, p) && IsSuffix(x, Extended(n, p)) && x != Extended(n, p)
    ensures IsSuffix(x, n)
  {
    hide Slashes;
    ExtendedIsNext(n, p);
    if n != p {
      var e := Extended(n, p);
      hide Extended;
      SuffixSlashes(x, e);
      if |x| > |n| {
        SuffixOfSuffix(n, x, e);
        SuffixSlashes(n, x);
      } else {
        SuffixOfSuffix(x, n, e);
      }
    }
  }

  // ----- Names without their extension -----

  /** The last position of a character, when the second part has one and when it has none. */
  lemma {:induction false} LastIndexJoin(a: string, n: string, c: char)
    ensures LastIndex(a + n, c) == if LastIndex(n, c) >= 0 then |a| + LastIndex(n, c) else LastIndex(a, c)
  {
    if n == [] {
      assert a + n == a;
    } else {
      assert (a + n)[..|a + n| - 1] == a + n[..|n| - 1];
      LastIndexJoin(a, n[..|n| - 1], c);
    }
  }

  /** Nothing in the name separates it from what is put in front. */
  predicate IsPlain(n: string) {
    LastIndex(n, '.') < 0 && LastIndex(n, '/') < 0 && LastIndex(n, '\\') < 0
  }

  lemma BasenameOfJoin(a: string, n: string)
    requires !IsPlain(n)
    ensures Basename(a + n) == a + Basename(n)
  {
    LastIndexJoin(a, n, '.');
    LastIndexJoin(a, n, '/');
    LastIndexJoin(a, n, '\\');
    hide LastIndex;
    var dot := LastIndex(n, '.');
    if dot >= 0 {
      assert (a + n)[..|a| + dot] == a + n[..dot];
    }
  }

  lemma SlashAtEnd(q: string)
    ensures LastIndex(q + "/", '/') == |q| && LastIndex(q + "/", '.') < |q| && LastIndex(q + "/", '\\') < |q|
  {
  }

  /** Both the name and the path lose the same extension. */
  lemma BasenameOfPath(q: string, n: string)
    ensures Basename(q + "/" + n) == q + "/" + Basename(n)
  {
    if IsPlain(n) {
      LastIndexJoin(q + "/", n, '.');
      LastIndexJoin(q + "/", n, '/');
      LastIndexJoin(q + "/", n, '\\');
      SlashAtEnd(q);
    } else {
      BasenameOfJoin(q + "/", n);
    }
  }

  lemma TrimOfJoin(a: string, b: string)
    requires b != ""
    ensures TrimSlash(a + b) == a + TrimSlash(b)
  {
    assert (a + b)[|a + b| - 1] == b[|b| - 1];
    assert (a + b)[..|a + b| - 1] == a + b[..|b| - 1];
  }

  lemma ShownOfJoin(a: string, n: string)
    requires !IsPlain(n) && HasBase(n)
    ensures Shown(a + n) == a + Shown(n)
  {
    BasenameOfJoin(a, n);
    TrimOfJoin(a, Basename(n));
  }

  /** The part of a path in front of a name is shown, unless the name is all extension: then its slash is not. */
  lemma ShownOfPath(q: string, n: string)
    ensures HasBase(q + "/" + n)
    ensures HasBase(n) ==> Shown(q + "/" + n) == q + "/" + Shown(n)
    ensures !HasBase(n) ==> Shown(q + "/" + n) == q && Shown(n) == ""
  {
    BasenameOfPath(q, n);
    if HasBase(n) {
      TrimOfJoin(q + "/", Basename(n));
    } else {
      assert q + "/" + "" == q + "/";
    }
  }

  /** The lengths the code compares differ by what stands before the name. */
  lemma Difference(n: string, p: string)
    requires IsSuffix(n, p) && HasBase(n)
    ensures |Shown(p)| - |Shown(n)| == |p| - |n|
    ensures 0 <= |p| - |n| <= |Shown(p)| && Shown(p)[..|p| - |n|] == p[..|p| - |n|]
  {
    if n != p {
      SuffixSplit(n, p);
      ShownOfPath(Before(n, p), n);
      hide Shown;
    }
  }

  lemma ExtendedHasBase(n: string, p: string)
    requires IsSuffix(n, p) && HasBase(n)
    ensures HasBase(Extended(n, p))
  {
    if n != p {
      var q := Before(n, p);
      ShownOfPath(q[LastIndex(q, '/') + 1..], n);
    }
  }

  // ----- One parent folder -----

  /** What follows a slash, if one was found. */
  function CutAfter(s: string, slash: int): string {
    if 0 <= slash < |s| && |s| > 1 then s[slash + 1..] else s
  }

  /** The two searches: the folder in front of the name, with its slash, if the text before the name is `parent`. */
  function Folder(parent: string): string {
    CutAfter(parent, LastIndexFrom(parent, '/', LastIndexFrom(parent, '/', -1) - 1))
  }

  /** How much of the path the code takes to be missing from the name. */
  function Missing(name: string, path: string): (n: int)
    ensures n <= |Shown(WithoutRes(path))|
  {
    |Shown(WithoutRes(path))| - |Shown(name)|
  }

  /** The name after the body of the first loop, for any name and path. */
  function Appended(name: string, path: string): string {
    if Missing(name, path) > 0 then Folder(Shown(WithoutRes(path))[..Missing(name, path)]) + name else name
  }

  /** The body of the first loop: the next parent folder is cut out of the path and put in front. */
  method AppendParent(name: string, path: string) returns (r: string)
    ensures r == Appended(name, path)
    ensures IsSuffix(name, WithoutRes(path)) && HasBase(name) ==> r == Extended(name, WithoutRes(path))
  {
    hide Basename, TrimSlash, LastIndex, LastIndexFrom, CutAfter, Extended, IsSuffix, HasBase;
    var sceneName := Basename(name);
    var fullPath := path;
    if "res://" <= fullPath {
      fullPath := fullPath[6..];
    }
    fullPath := Basename(fullPath);
    sceneName := TrimSlash(sceneName);
    fullPath := TrimSlash(fullPath);
    var difference := |fullPath| - |sceneName|;
    r := name;
    if difference > 0 {
      var parent := fullPath[..difference];
      var slash := LastIndexFrom(parent, '/', -1);
      slash := LastIndexFrom(parent, '/', slash - 1);
      parent := CutAfter(parent, slash);
      r := parent + name;
    }
    hide Folder;
    if IsSuffix(name, WithoutRes(path)) && HasBase(name) {
      AppendedIsExtended(name, path);
    }
  }

  lemma AppendedMeans(name: string, path: string, p: string, d: int)
    requires p == WithoutRes(path) && d == |Shown(p)| - |Shown(name)|
    ensures Missing(name, path) == d
    ensures Appended(name, path) == if d > 0 then Folder(Shown(p)[..d]) + name else name
  {
    hide Shown, Folder, WithoutRes;
  }

  lemma AppendedEndsWith(name: string, path: string)
    ensures EndsWith(Appended(name, path), name)
  {
    hide Shown, Folder;
    var folder := if Missing(name, path) > 0 then Folder(Shown(WithoutRes(path))[..Missing(name, path)]) else "";
    EndsWithJoin(folder, name);
  }

  /** A name that is not all extension gets exactly its parent folder. */
  lemma AppendedIsExtended(name: string, path: string)
    requires IsSuffix(name, WithoutRes(path)) && HasBase(name)
    ensures Appended(name, path) == Extended(name, WithoutRes(path))
    ensures Missing(name, path) > 0 <==> name != WithoutRes(path)
  {
    hide *;
    var p := WithoutRes(path);
    Difference(name, p);
    AppendedMeans(name, path, p, |p| - |name|);
    SameLengthSuffix(name, p);
    if name != p {
      CutParent(name, p);
    }
  }

  lemma SameLengthSuffix(n: string, p: string)
    requires IsSuffix(n, p)
    ensures |p| <= |n| ==> n == p && Extended(n, p) == p
    ensures n == p ==> |p| <= |n|
  {
  }

  /** The folder the two searches cut out. */
  lemma CutParent(n: string, p: string)
    requires IsSuffix(n, p) && n != p
    ensures Folder(p[..|p| - |n|]) + n == Extended(n, p)
  {
    SuffixSplit(n, p);
    var q := Before(n, p);
    var parent := p[..|p| - |n|];
    assert parent == q + "/";
    FolderOf(q);
  }

  /** The last slash but one decides, if the text has more than one. */
  lemma FolderIs(q: string)
    ensures var first := LastIndex(q, '/');
            Folder(q) == CutAfter(q, if first > 0 then LastIndex(q[..first], '/') else first)
  {
    hide LastIndex, LastIndexFrom, CutAfter;
    Searches(q);
  }

  lemma Searches(q: string)
    ensures var first := LastIndex(q, '/');
            LastIndexFrom(q, '/', -1) == first
            && LastIndexFrom(q, '/', first - 1) == if first > 0 then LastIndex(q[..first], '/') else first
  {
    hide LastIndex;
    var first := LastIndex(q, '/');
    assert first > 0 ==> q[..first - 1 + 1] == q[..first];
  }

  lemma FolderOf(q: string)
    ensures Folder(q + "/") == q[LastIndex(q, '/') + 1..] + "/"
  {
    var parent := q + "/";
    SlashAtEnd(q);
    FolderIs(parent);
    hide Folder, LastIndex;
    if q != [] {
      assert parent[..|q|] == q && parent[0..] == parent;
      DropThenJoin(q, LastIndex(q, '/') + 1);
    }
  }

  lemma DropThenJoin(q: string, k: nat)
    requires k <= |q|
    ensures (q + "/")[k..] == q[k..] + "/"
  {
  }

  lemma TailEnds(q: string, k: nat)
    requires k < |q|
    ensures |q[k..]| > 0 && q[k..][|q[k..]| - 1] == q[|q| - 1]
  {
  }

  /** The folder cut out of a text is never empty, and ends where the text ends. */
  lemma FolderEnds(q: string)
    requires q != []
    ensures |Folder(q)| > 0 && Folder(q)[|Folder(q)| - 1] == q[|q| - 1]
  {
    FolderIs(q);
    hide Folder, LastIndex;
    var first := LastIndex(q, '/');
    if first > 0 {
      TailEnds(q, LastIndex(q[..first], '/') + 1);
    } else if first == 0 && |q| > 1 {
      TailEnds(q, 1);
    }
  }

  // ----- Names that are all extension -----

  /** Everything before the slash of such a name counts as missing, and the slash is lost. */
  lemma AllExtension(q: string, n: string, path: string)
    requires !HasBase(n) && WithoutRes(path) == q + "/" + n
    ensures Missing(n, path) == |q| && Appended(n, path) == if q == "" then n else Folder(q) + n
  {
    hide *;
    ShownOfPath(q, n);
    AppendedMeans(n, path, q + "/" + n, |q|);
    assert q[..|q|] == q;
  }

  /**
    With a named folder before it: the step gives the next longer suffix exactly when something is left of
    the name without its extension.
   */
  lemma AppendedIffBase(q: string, n: string, path: string)
    requires q != [] && q[|q| - 1] != '/' && WithoutRes(path) == q + "/" + n
    ensures IsSuffix(n, WithoutRes(path))
    ensures Appended(n, path) == Extended(n, WithoutRes(path)) <==> HasBase(n)
  {
    hide *;
    JoinParts(q, n);
    if HasBase(n) {
      AppendedIsExtended(n, path);
    } else {
      AllExtension(q, n, path);
      FolderEnds(q);
      JoinedChar(Folder(q), n);
      ExtendedChar(n, q + "/" + n);
    }
  }

  /** The character before the name. */
  lemma JoinedChar(a: string, n: string)
    requires a != ""
    ensures |a + n| > |n| && (a + n)[|a + n| - |n| - 1] == a[|a| - 1]
  {
  }

  lemma ExtendedChar(n: string, p: string)
    requires IsSuffix(n, p) && n != p
    ensures |Extended(n, p)| > |n| && Extended(n, p)[|Extended(n, p)| - |n| - 1] == '/'
  {
    var q := Before(n, p);
    JoinedChar(q[LastIndex(q, '/') + 1..] + "/", n);
    hide LastIndex;
  }

  /**
    A file that is all extension loses its slash: shown as ".gd", the file "/x/.gd" becomes "x.gd", which
    is no suffix of its path, and which is what a file "x.gd" is called.
   */
  lemma DotFileLosesItsSlash()
    ensures IsSuffix(".gd", "/x/.gd") && !HasBase(".gd")
    ensures Appended(".gd", "/x/.gd") == "x.gd" && !IsSuffix("x.gd", "/x/.gd")
  {
    assert "res://"[0] != "/x/.gd"[0] && "/x/.gd" == "/x" + "/" + ".gd";
    DotFile();
    AllExtension("/x", ".gd", "/x/.gd");
    DotFileFolder();
    hide Appended, Missing, Folder, HasBase;
    assert "x" + ".gd" == "x.gd";
    assert "/x/.gd"[3..] == ".gd" && "/x/.gd"[2] == '/';
    assert "/x/.gd"[2..] == "/.gd" && "/.gd"[0] != "x.gd"[0];
  }

  lemma DotFile()
    ensures !HasBase(".gd")
  {
    assert ".gd"[0] == '.' && ".gd"[1] == 'g' && ".gd"[2] == 'd';
    LastIndexAt(".gd", '.', 0);
    LastIndexAt(".gd", '/', -1);
    LastIndexAt(".gd", '\\', -1);
  }

  lemma DotFileFolder()
    ensures Folder("/x") == "x"
  {
    var p := "/x";
    assert p[0] == '/' && p[1] == 'x';
    LastIndexAt(p, '/', 0);
    FolderIs(p);
    assert p[1..] == "x";
  }

  // ----- Every step comes closer to the end -----

  /** A plain name can run into the folder put in front of it; one that is all extension loses its slash once. */
  function Stage(n: string): nat {
    if IsPlain(n) then 2 else if HasBase(n) then 0 else 1
  }

  /** What is left to do for a name, for any name and path. */
  function Distance(name: string, path: string): nat {
    Stage(name) * (|Shown(WithoutRes(path))| + 1) + Max(0, Missing(name, path))
  }

  lemma PlainJoin(a: string, n: string)
    ensures IsPlain(a + n) <==> IsPlain(a) && IsPlain(n)
  {
    LastIndexJoin(a, n, '.');
    LastIndexJoin(a, n, '/');
    LastIndexJoin(a, n, '\\');
    hide LastIndex;
  }

  lemma PlainIsShown(n: string)
    requires IsPlain(n)
    ensures Shown(n) == n
  {
  }

  lemma StageOfJoin(a: string, n: string)
    requires a != ""
    ensures Stage(a + n) < Stage(n) || (Stage(a + n) == Stage(n) && |Shown(a + n)| > |Shown(n)|)
  {
    PlainJoin(a, n);
    if IsPlain(n) {
      if IsPlain(a + n) {
        PlainIsShown(n);
        PlainIsShown(a + n);
      }
    } else {
      BasenameOfJoin(a, n);
      if HasBase(n) {
        ShownOfJoin(a, n);
      }
    }
  }

  lemma StageSteps(stage: nat, next: nat, size: nat, missing: int, left: int)
    requires next < stage && left <= size && missing >= 0
    ensures next * (size + 1) + Max(0, left) < stage * (size + 1) + missing
  {
    assert next * (size + 1) + size + 1 == (next + 1) * (size + 1);
    assert (next + 1) * (size + 1) <= stage * (size + 1);
  }

  /** A step that changes a name brings it closer to the end. */
  lemma AppendedIsCloser(name: string, path: string)
    ensures Missing(name, path) > 0 ==> Distance(Appended(name, path), path) < Distance(name, path)
    ensures Missing(name, path) <= 0 ==> Appended(name, path) == name
  {
    if Missing(name, path) > 0 {
      var full := Shown(WithoutRes(path));
      var folder := Folder(full[..Missing(name, path)]);
      FolderEnds(full[..Missing(name, path)]);
      StageOfJoin(folder, name);
      var r := folder + name;
      hide Folder, Shown, Stage;
      assert r == Appended(name, path);
      if Stage(r) < Stage(name) {
        StageSteps(Stage(name), Stage(r), |full|, Missing(name, path), Missing(r, path));
      }
    }
  }
}
