/**
  Telling files of the same name apart (`OrchestratorEditor::disambiguate_filenames` of
  `src/editor/editor.cpp`): parent folders are put in front of the names until they differ.
 */
module Disambiguation {
  import opened FileNames

  /** What a name can be a suffix of. */
  function Target(paths: seq<string>, i: int): string
    requires 0 <= i < |paths|
  {
    WithoutRes(paths[i])
  }

  /** The name at `i` is a path suffix of its file, and not all extension. */
  ghost predicate Fits(paths: seq<string>, names: seq<string>, i: int) {
    |paths| == |names| && 0 <= i < |names| && IsSuffix(names[i], Target(paths, i)) && HasBase(names[i])
  }

  lemma ExtendedFits(paths: seq<string>, names: seq<string>, r: seq<string>, i: int)
    requires Fits(paths, names, i) && |r| == |names| && r[i] == Extended(names[i], Target(paths, i))
    ensures Fits(paths, r, i)
  {
    ExtendedIsNext(names[i], Target(paths, i));
    ExtendedHasBase(names[i], Target(paths, i));
  }

  ghost predicate AllFit(paths: seq<string>, names: seq<string>, indices: set<int>) {
    forall i :: i in indices ==> Fits(paths, names, i)
  }

  /** There is a parent folder left to put in front. */
  predicate CanGrow(paths: seq<string>, names: seq<string>, i: int) {
    0 <= i < |names| && i < |paths| && names[i] != Target(paths, i)
  }

  /** The code takes something of the path to be missing from the name. */
  predicate Misses(paths: seq<string>, names: seq<string>, i: int) {
    0 <= i < |names| && i < |paths| && Missing(names[i], paths[i]) >= 1
  }

  ghost predicate Grown(paths: seq<string>, names: seq<string>, r: seq<string>, i: int) {
    && Fits(paths, names, i) && |r| == |names|
    && r[i] == Extended(names[i], Target(paths, i))
  }

  predicate InRange(indices: set<int>, n: nat) {
    forall i :: i in indices ==> 0 <= i < n
  }

  // ----- The two inner loops -----

  /** One pass over a set of indices. */
  ghost predicate Stepped(paths: seq<string>, names: seq<string>, r: seq<string>, indices: set<int>) {
    && |r| == |names| == |paths| && InRange(indices, |names|)
    && (forall i :: i in indices ==> r[i] == Appended(names[i], paths[i]))
    && (forall i :: 0 <= i < |names| && i !in indices ==> r[i] == names[i])
  }

  /** The first inner loop: one more folder for every name of the set. */
  method AppendAll(paths: seq<string>, names: seq<string>, indices: set<int>) returns (r: seq<string>)
    requires |paths| == |names| && InRange(indices, |names|)
    ensures Stepped(paths, names, r, indices)
  {
    r := names;
    var todo := indices;
    while todo != {}
      invariant todo <= indices && |r| == |names|
      invariant forall i :: i in indices && i !in todo ==> r[i] == Appended(names[i], paths[i])
      invariant forall i :: 0 <= i < |names| && (i !in indices || i in todo) ==> r[i] == names[i]
      decreases todo
    {
      assert exists n: int :: n in todo by {
        assert (forall n: int :: n !in todo) ==> todo == {};
      }
      var i: int :| i in todo;
      hide Appended, IsSuffix, HasBase, Extended;
      var name := AppendParent(r[i], paths[i]);
      r := r[i := name];
      todo := todo - {i};
    }
  }

  /** Another member of the set has the same name. */
  ghost predicate Ambiguous(names: seq<string>, indices: set<int>, i: int) {
    0 <= i < |names| && exists j :: j in indices && j != i && 0 <= j < |names| && names[j] == names[i]
  }

  method IsAmbiguous(names: seq<string>, indices: set<int>, i: int) returns (r: bool)
    requires 0 <= i < |names| && forall j :: j in indices ==> 0 <= j < |names|
    ensures r <==> Ambiguous(names, indices, i)
  {
    var todo := indices;
    while todo != {}
      invariant todo <= indices
      invariant forall j :: j in indices && j !in todo ==> j == i || names[j] != names[i]
      decreases todo
    {
      assert exists n: int :: n in todo by {
        assert (forall n: int :: n !in todo) ==> todo == {};
      }
      var j: int :| j in todo;
      if j != i && names[j] == names[i] {
        return true;
      }
      todo := todo - {j};
    }
    return false;
  }

  /** How much of the path is not in the name yet, as the second loop measures it. */
  method Unused(name: string, path: string) returns (n: int)
    ensures n == Missing(name, path)
  {
    hide Basename, TrimSlash;
    var sceneName := Basename(name);
    var p := if "res://" <= path then path[6..] else path;
    p := Basename(p);
    sceneName := TrimSlash(sceneName);
    p := TrimSlash(p);
    n := |p| - |sceneName|;
  }

  /** One turn of the second inner loop. */
  method Judge(paths: seq<string>, names: seq<string>, kept: set<int>, i: int) returns (duplicate: bool, grows: bool)
    requires |paths| == |names| && InRange(kept, |names|) && i in kept
    ensures duplicate <==> Ambiguous(names, kept, i)
    ensures grows <==> Misses(paths, names, i)
  {
    hide Ambiguous, Missing;
    duplicate := IsAmbiguous(names, kept, i);
    var unused := Unused(names[i], paths[i]);
    grows := unused >= 1;
  }

  /** The second inner loop: names that stand alone leave the set; can any name still grow? */
  method Prune(paths: seq<string>, names: seq<string>, indices: set<int>) returns (kept: set<int>, canProceed: bool)
    requires |paths| == |names| && InRange(indices, |names|)
    ensures kept == set i | i in indices && Ambiguous(names, indices, i)
    ensures canProceed <==> exists i :: i in indices && Misses(paths, names, i)
  {
    hide *;
    FewerInRange(indices, indices, |names|);
    kept, canProceed := indices, false;
    var todo := indices;
    while todo != {}
      invariant todo <= kept <= indices
      invariant forall i :: i in kept && i !in todo ==> Ambiguous(names, indices, i)
      invariant forall i :: i in indices && i !in kept ==> !Ambiguous(names, indices, i)
      invariant canProceed <==> exists i :: i in indices && i !in todo && Misses(paths, names, i)
      decreases todo
    {
      assert exists n: int :: n in todo by {
        assert (forall n: int :: n !in todo) ==> todo == {};
      }
      var i: int :| i in todo;
      FewerInRange(indices, kept, |names|);
      StillAmbiguous(names, indices, kept, i);
      var duplicate, grows := Judge(paths, names, kept, i);
      canProceed := canProceed || grows;
      if !duplicate {
        kept := kept - {i};
      }
      todo := todo - {i};
    }
  }

  lemma FewerInRange(indices: set<int>, kept: set<int>, n: nat)
    requires InRange(indices, n) && kept <= indices
    ensures InRange(kept, n) && forall i :: i in indices ==> 0 <= i < n
  {
  }

  /** Whoever left the set had no double, so nobody misses one. */
  lemma StillAmbiguous(names: seq<string>, indices: set<int>, kept: set<int>, i: int)
    requires kept <= indices && i in kept && 0 <= i < |names|
    requires forall j :: j in indices ==> 0 <= j < |names|
    requires forall j :: j in indices && j !in kept ==> !Ambiguous(names, indices, j)
    ensures Ambiguous(names, kept, i) <==> Ambiguous(names, indices, i)
  {
    if Ambiguous(names, indices, i) {
      var j :| j in indices && j != i && 0 <= j < |names| && names[j] == names[i];
      assert Ambiguous(names, indices, j);
    }
  }

  // ----- One set of equal names -----

  /**
    After `k` passes over a set: its names are path suffixes with at most `k` slashes, with exactly `k`
    where they are still in play and can grow; those out of play are like no other; files with the same
    path have the same name and are in or out of play together.
   */
  ghost predicate InPlay(paths: seq<string>, start: seq<string>, r: seq<string>, group: set<int>, indices: set<int>,
                         k: nat) {
    && |r| == |start| == |paths| && indices <= group && AllFit(paths, r, group)
    && (forall i :: i in group ==> 0 <= i < |r| && Slashes(r[i]) <= k)
    && (forall i :: i in indices ==> 0 <= i < |r| && (CanGrow(paths, r, i) ==> Slashes(r[i]) == k))
    && (forall i, j :: i in group && j in group && SameFile(paths, i, j) ==>
       SameName(r, i, j) && (i in indices <==> j in indices))
    && (forall i, j :: i in group - indices && j in group && i != j ==> !SameName(r, i, j))
    && (forall j :: 0 <= j < |r| && j !in group ==> r[j] == start[j])
  }

  predicate SameFile(paths: seq<string>, i: int, j: int) {
    0 <= i < |paths| && 0 <= j < |paths| && Target(paths, i) == Target(paths, j)
  }

  predicate SameName(names: seq<string>, i: int, j: int) {
    0 <= i < |names| && 0 <= j < |names| && names[i] == names[j]
  }

  /** How a name changes in a pass. */
  lemma GrownName(paths: seq<string>, names: seq<string>, r: seq<string>, i: int)
    requires Grown(paths, names, r, i)
    ensures Fits(paths, r, i)
    ensures !CanGrow(paths, names, i) ==> r[i] == names[i] && !CanGrow(paths, r, i)
    ensures CanGrow(paths, names, i) ==> Slashes(r[i]) == Slashes(names[i]) + 1
  {
    ExtendedFits(paths, names, r, i);
    ExtendedIsNext(names[i], Target(paths, i));
  }

  /** A pass over the set, before anything leaves it. */
  ghost predicate Passed(paths: seq<string>, names: seq<string>, r: seq<string>, indices: set<int>) {
    && |r| == |names|
    && (forall i :: i in indices ==> Grown(paths, names, r, i))
    && (forall i :: 0 <= i < |names| && i !in indices ==> r[i] == names[i])
  }

  lemma PassedFits(paths: seq<string>, start: seq<string>, names: seq<string>, r: seq<string>, group: set<int>,
                   indices: set<int>, k: nat)
    requires InPlay(paths, start, names, group, indices, k) && Passed(paths, names, r, indices)
    ensures AllFit(paths, r, group)
    ensures forall i :: i in group ==> 0 <= i < |r| && Slashes(r[i]) <= k + 1
    ensures forall i :: i in indices ==> 0 <= i < |r| && (CanGrow(paths, r, i) ==> Slashes(r[i]) == k + 1)
    ensures forall i :: i in indices && r[i] != names[i] ==> Slashes(r[i]) == k + 1
    ensures forall i, j :: i in indices && j in indices && SameFile(paths, i, j) ==> SameName(r, i, j)
  {
    hide IsSuffix, HasBase, Slashes, Extended, Target;
    forall i | i in indices
      ensures Fits(paths, r, i) && Slashes(r[i]) <= k + 1
      ensures CanGrow(paths, r, i) || r[i] != names[i] ==> Slashes(r[i]) == k + 1
    {
      GrownName(paths, names, r, i);
    }
    forall i | i in group ensures Fits(paths, r, i) && Slashes(r[i]) <= k + 1 {
      if i !in indices {
        assert Fits(paths, names, i) && r[i] == names[i];
      }
    }
    forall i, j | i in indices && j in indices && SameFile(paths, i, j) ensures SameName(r, i, j) {
      assert SameName(names, i, j);
      assert Grown(paths, names, r, i) && Grown(paths, names, r, j);
    }
  }

  lemma PassedApart(paths: seq<string>, start: seq<string>, names: seq<string>, r: seq<string>, group: set<int>,
                    indices: set<int>, k: nat,
                    i: int, j: int)
    requires InPlay(paths, start, names, group, indices, k) && Passed(paths, names, r, indices)
    requires i in group - indices && j in group && i != j
    ensures !SameName(r, i, j)
  {
    PassedFits(paths, start, names, r, group, indices, k);
    hide IsSuffix, HasBase, Slashes, Extended, Target, CanGrow;
    assert !SameName(names, i, j);
    assert r[i] == names[i] && Slashes(names[i]) <= k;
  }

  /** One pass keeps the account. */
  lemma PassKeeps(paths: seq<string>, start: seq<string>, names: seq<string>, r: seq<string>,
                  group: set<int>, indices: set<int>, kept: set<int>, k: nat)
    requires InPlay(paths, start, names, group, indices, k) && Passed(paths, names, r, indices)
    requires kept == set i | i in indices && Ambiguous(r, indices, i)
    ensures InPlay(paths, start, r, group, kept, k + 1)
  {
    PassedFits(paths, start, names, r, group, indices, k);
    forall i, j | i in group && j in group && SameFile(paths, i, j)
      ensures SameName(r, i, j) && (i in kept <==> j in kept)
    {
      assert SameName(names, i, j) && (i in indices <==> j in indices);
      assert i !in indices && i != j ==> !SameName(names, i, j);
    }
    forall i, j | i in group - kept && j in group && i != j ensures !SameName(r, i, j) {
      if i !in indices {
        PassedApart(paths, start, names, r, group, indices, k, i, j);
      } else if j !in indices {
        PassedApart(paths, start, names, r, group, indices, k, j, i);
      } else {
        assert !Ambiguous(r, indices, i);
      }
    }
  }

  /** The names of the set differ exactly where the files do. */
  ghost predicate ToldApart(paths: seq<string>, r: seq<string>, group: set<int>) {
    forall i, j :: i in group && j in group ==> (SameName(r, i, j) <==> SameFile(paths, i, j))
  }

  /** When nothing can grow any more, names that are still equal belong to the same file. */
  lemma NothingCanGrow(paths: seq<string>, start: seq<string>, r: seq<string>, group: set<int>, indices: set<int>,
                       k: nat)
    requires InPlay(paths, start, r, group, indices, k)
    requires forall i :: i in indices ==> !CanGrow(paths, r, i)
    ensures ToldApart(paths, r, group)
  {
    hide AllFit, Slashes, Target;
    forall i, j | i in group && j in group ensures SameName(r, i, j) <==> SameFile(paths, i, j) {
      assert i !in indices && i != j ==> !SameName(r, i, j);
      assert j !in indices && i != j ==> !SameName(r, j, i);
      assert i in indices ==> !CanGrow(paths, r, i);
      assert j in indices ==> !CanGrow(paths, r, j);
    }
  }

  lemma OneLeft(paths: seq<string>, start: seq<string>, r: seq<string>, group: set<int>, indices: set<int>, k: nat)
    requires InPlay(paths, start, r, group, indices, k) && |indices| <= 1
    ensures ToldApart(paths, r, group)
  {
    hide AllFit, Slashes, Target;
    forall i, j | i in indices && j in indices ensures i == j {
      assert i != j ==> |{i, j}| == 2 && {i, j} <= indices && |indices - {i, j}| == |indices| - 2;
    }
    forall i, j | i in group && j in group ensures SameName(r, i, j) <==> SameFile(paths, i, j) {
      assert i !in indices && i != j ==> !SameName(r, i, j);
      assert j !in indices && i != j ==> !SameName(r, j, i);
    }
  }

  // ----- The names are as short as they can be -----

  /** The path of another member has this suffix too. */
  ghost predicate Shared(paths: seq<string>, group: set<int>, i: int, x: string) {
    exists j :: j in group && j != i && 0 <= j < |paths| && IsSuffix(x, Target(paths, j))
  }

  /** Every shorter suffix of the path, down to the start name, is shared with another member. */
  ghost predicate Needed(paths: seq<string>, start: seq<string>, r: seq<string>, group: set<int>, i: int) {
    && |r| == |start| && 0 <= i < |r|
    && forall x :: IsSuffix(x, r[i]) && x != r[i] && |x| >= |start[i]| ==> Shared(paths, group, i, x)
  }

  /** The name is not shared, or is the whole path. */
  ghost predicate Settled(paths: seq<string>, r: seq<string>, group: set<int>, i: int) {
    0 <= i < |r| && i < |paths| && (r[i] == Target(paths, i) || !Shared(paths, group, i, r[i]))
  }

  /** The shortest name, from the start name on, that no other member's path ends with; failing that, the path. */
  ghost predicate Shortest(paths: seq<string>, start: seq<string>, r: seq<string>, group: set<int>, i: int) {
    Needed(paths, start, r, group, i) && Settled(paths, r, group, i)
  }

  /** No name has grown without need, and names out of play are settled. */
  ghost predicate Accounted(paths: seq<string>, start: seq<string>, r: seq<string>, group: set<int>,
                            indices: set<int>) {
    && (forall i :: i in group ==> Needed(paths, start, r, group, i))
    && (forall i :: i in group - indices ==> Settled(paths, r, group, i))
    && (forall i :: i in indices && |group| > 1 ==> Ambiguous(r, indices, i))
  }

  /** A name that is like another one in play may grow. */
  lemma StillNeeded(paths: seq<string>, start: seq<string>, names: seq<string>, r: seq<string>,
                    group: set<int>, indices: set<int>, i: int)
    requires i in indices && indices <= group && AllFit(paths, names, group) && |start| == |names|
    requires Needed(paths, start, names, group, i) && Grown(paths, names, r, i) && Ambiguous(names, indices, i)
    ensures Needed(paths, start, r, group, i)
  {
    var j :| j in indices && j != i && 0 <= j < |names| && names[j] == names[i];
    assert Fits(paths, names, j);
    hide IsSuffix, HasBase, Extended, Target;
    forall x | IsSuffix(x, r[i]) && x != r[i] && |x| >= |start[i]| ensures Shared(paths, group, i, x) {
      NothingBetween(x, names[i], Target(paths, i));
      if x == names[i] {
        assert IsSuffix(x, Target(paths, j));
      }
    }
  }

  /** Two suffixes of one path with the same number of slashes are equal. */
  lemma SameDepth(a: string, b: string, p: string)
    requires IsSuffix(a, p) && IsSuffix(b, p) && Slashes(a) == Slashes(b)
    ensures a == b
  {
    hide IsSuffix, Slashes;
    if |a| <= |b| {
      SuffixOfSuffix(a, b, p);
      if a != b {
        SuffixSlashes(a, b);
      }
    } else {
      SuffixOfSuffix(b, a, p);
      SuffixSlashes(b, a);
    }
  }

  /** Of two suffixes of one path, the one with fewer slashes is a suffix of the other. */
  lemma LessDeep(a: string, b: string, p: string)
    requires IsSuffix(a, p) && IsSuffix(b, p) && Slashes(a) < Slashes(b)
    ensures IsSuffix(a, b)
  {
    hide IsSuffix, Slashes;
    if |a| <= |b| {
      SuffixOfSuffix(a, b, p);
    } else {
      SuffixOfSuffix(b, a, p);
      SuffixSlashes(b, a);
    }
  }

  /** A name that leaves is shared with no member in play, because their names are as long as it or whole. */
  lemma NotSharedInPlay(paths: seq<string>, r: seq<string>, i: int, j: int, k: nat)
    requires Fits(paths, r, i) && Fits(paths, r, j) && r[i] != r[j] && Slashes(r[i]) == k && Slashes(r[j]) <= k
    requires CanGrow(paths, r, j) ==> Slashes(r[j]) == k
    ensures !IsSuffix(r[i], Target(paths, j))
  {
    hide IsSuffix, Slashes, HasBase, Target;
    if IsSuffix(r[i], Target(paths, j)) {
      if CanGrow(paths, r, j) {
        SameDepth(r[i], r[j], Target(paths, j));
      } else {
        SuffixSlashes(r[i], r[j]);
      }
    }
  }

  /** Nor with one that left before: that name was shorter, and would be shared with this one. */
  lemma NotSharedSettled(paths: seq<string>, r: seq<string>, group: set<int>, i: int, j: int)
    requires Fits(paths, r, i) && Fits(paths, r, j) && i in group && i != j && Slashes(r[j]) < Slashes(r[i])
    requires Settled(paths, r, group, j)
    ensures !IsSuffix(r[i], Target(paths, j))
  {
    hide IsSuffix, Slashes, HasBase, Target;
    if IsSuffix(r[i], Target(paths, j)) {
      LessDeep(r[j], r[i], Target(paths, j));
      SuffixTrans(r[j], r[i], Target(paths, i));
      assert Shared(paths, group, j, r[j]);
      assert r[j] == Target(paths, j);
      SameDepthOrLess(r[i], r[j]);
    }
  }

  lemma SameDepthOrLess(a: string, b: string)
    requires IsSuffix(a, b)
    ensures Slashes(a) <= Slashes(b)
  {
    if a != b {
      SuffixSlashes(a, b);
    }
  }

  lemma LeavesSettled(paths: seq<string>, start: seq<string>, names: seq<string>, r: seq<string>,
                      group: set<int>, indices: set<int>, k: nat, i: int)
    requires InPlay(paths, start, names, group, indices, k) && Passed(paths, names, r, indices)
    requires Accounted(paths, start, names, group, indices) && i in indices && !Ambiguous(r, indices, i)
    ensures Settled(paths, r, group, i)
  {
    PassedFits(paths, start, names, r, group, indices, k);
    assert Fits(paths, r, i);
    hide IsSuffix, Slashes, HasBase, Extended, Target, Grown, Needed, AllFit;
    if CanGrow(paths, r, i) {
      forall j | j in group && j != i && 0 <= j < |paths| ensures !IsSuffix(r[i], Target(paths, j)) {
        FitsIn(paths, r, group, j);
        if j in indices {
          assert r[i] != r[j];
          NotSharedInPlay(paths, r, i, j, k + 1);
        } else {
          assert Settled(paths, names, group, j) && r[j] == names[j];
          NotSharedSettled(paths, r, group, i, j);
        }
      }
    }
  }

  lemma FitsIn(paths: seq<string>, r: seq<string>, group: set<int>, j: int)
    requires AllFit(paths, r, group) && j in group
    ensures Fits(paths, r, j)
  {
  }

  lemma AllNeeded(paths: seq<string>, start: seq<string>, names: seq<string>, r: seq<string>,
                  group: set<int>, indices: set<int>)
    requires indices <= group && AllFit(paths, names, group) && Passed(paths, names, r, indices)
    requires |start| == |names| && Accounted(paths, start, names, group, indices) && |group| > 1
    ensures forall i :: i in group ==> Needed(paths, start, r, group, i)
  {
    hide AllFit, Grown, IsSuffix;
    forall i | i in group ensures Needed(paths, start, r, group, i) {
      assert Needed(paths, start, names, group, i);
      if i in indices {
        assert Grown(paths, names, r, i);
        StillNeeded(paths, start, names, r, group, indices, i);
      } else {
        assert r[i] == names[i];
      }
    }
  }

  lemma AllSettled(paths: seq<string>, start: seq<string>, names: seq<string>, r: seq<string>,
                   group: set<int>, indices: set<int>, kept: set<int>, k: nat)
    requires InPlay(paths, start, names, group, indices, k) && Passed(paths, names, r, indices)
    requires Accounted(paths, start, names, group, indices)
    requires kept == set i | i in indices && Ambiguous(r, indices, i)
    ensures forall i :: i in group - kept ==> Settled(paths, r, group, i)
  {
    var left := group - indices;
    assert forall i :: i in left ==> Settled(paths, names, group, i);
    assert forall i :: i in left ==> 0 <= i < |names| && i !in indices;
    assert forall i :: 0 <= i < |names| && i !in indices ==> r[i] == names[i];
    hide InPlay, Passed, Accounted, Ambiguous, Target, IsSuffix;
    forall i | i in group - kept ensures Settled(paths, r, group, i) {
      if i in indices {
        LeavesSettled(paths, start, names, r, group, indices, k, i);
      } else {
        assert i in left;
      }
    }
  }

  lemma StillDoubled(r: seq<string>, indices: set<int>, kept: set<int>)
    requires kept == set i | i in indices && Ambiguous(r, indices, i)
    ensures forall i :: i in kept ==> Ambiguous(r, kept, i)
  {
    forall i | i in kept ensures Ambiguous(r, kept, i) {
      var j :| j in indices && j != i && 0 <= j < |r| && r[j] == r[i];
      assert Ambiguous(r, indices, j);
    }
  }

  lemma AccountedParts(paths: seq<string>, start: seq<string>, r: seq<string>, group: set<int>, indices: set<int>)
    requires forall i :: i in group ==> Needed(paths, start, r, group, i)
    requires forall i :: i in group - indices ==> Settled(paths, r, group, i)
    requires forall i :: i in indices ==> Ambiguous(r, indices, i)
    ensures Accounted(paths, start, r, group, indices)
  {
    hide Needed, Settled, Ambiguous;
  }

  /** One pass keeps that account too. */
  lemma AccountedNext(paths: seq<string>, start: seq<string>, names: seq<string>, r: seq<string>,
                      group: set<int>, indices: set<int>, kept: set<int>, k: nat)
    requires InPlay(paths, start, names, group, indices, k) && Passed(paths, names, r, indices)
    requires Accounted(paths, start, names, group, indices) && |group| > 1
    requires kept == set i | i in indices && Ambiguous(r, indices, i)
    ensures Accounted(paths, start, r, group, kept)
  {
    hide *;
    InPlayFits(paths, start, names, group, indices, k);
    AllNeeded(paths, start, names, r, group, indices);
    AllSettled(paths, start, names, r, group, indices, kept, k);
    StillDoubled(r, indices, kept);
    AccountedParts(paths, start, r, group, kept);
  }

  lemma AccountedFirst(paths: seq<string>, names: seq<string>, group: set<int>)
    requires StartSet(paths, names, group)
    ensures Accounted(paths, names, names, group, group)
  {
    hide Target;
    forall i | i in group && |group| > 1 ensures Ambiguous(names, group, i) {
      var j := AnotherMember(group, i);
      assert SameName(names, i, j);
    }
    forall i | i in group ensures Needed(paths, names, names, group, i) {
      assert Fits(paths, names, i);
    }
  }

  lemma AnotherMember(group: set<int>, i: int) returns (j: int)
    requires i in group && |group| > 1
    ensures j in group && j != i
  {
    assert |group - {i}| > 0;
    assert exists n: int :: n in group - {i} by {
      assert (forall n: int :: n !in group - {i}) ==> group - {i} == {};
    }
    j :| j in group - {i};
  }

  /** When the loop ends, every name is settled. */
  lemma AllShortest(paths: seq<string>, start: seq<string>, r: seq<string>, group: set<int>, indices: set<int>)
    requires Accounted(paths, start, r, group, indices) && AllFit(paths, r, group) && indices <= group
    requires |indices| <= 1 || forall i :: i in indices ==> !CanGrow(paths, r, i)
    ensures forall i :: i in group ==> Shortest(paths, start, r, group, i)
  {
    hide IsSuffix, HasBase, Target, Needed;
    forall i | i in group ensures Settled(paths, r, group, i) {
      assert Fits(paths, r, i);
      if i in indices && CanGrow(paths, r, i) {
        forall j | j in group && j != i ensures false {
          FewerMembers({i, j}, group);
          var l :| l in indices && l != i && 0 <= l < |r| && r[l] == r[i];
          FewerMembers({i, l}, indices);
        }
      }
    }
  }

  lemma FewerFit(paths: seq<string>, names: seq<string>, indices: set<int>, kept: set<int>)
    requires AllFit(paths, names, indices) && kept <= indices
    ensures AllFit(paths, names, kept)
    ensures forall i :: i in indices ==> 0 <= i < |names|
  {
    assert forall i :: i in indices ==> Fits(paths, names, i);
  }

  // ----- Termination -----

  /** How far all the names together are from their ends. */
  function TotalDistance(paths: seq<string>, names: seq<string>, n: nat): nat
    requires n <= |names| && |names| == |paths|
  {
    if n == 0 then 0 else TotalDistance(paths, names, n - 1) + Distance(names[n - 1], paths[n - 1])
  }

  lemma {:induction false} TotalSmaller(paths: seq<string>, a: seq<string>, b: seq<string>, n: nat)
    requires n <= |a| == |b| == |paths|
    requires forall i :: 0 <= i < n ==> Distance(b[i], paths[i]) <= Distance(a[i], paths[i])
    ensures TotalDistance(paths, b, n) <= TotalDistance(paths, a, n)
    ensures (exists i :: 0 <= i < n && Distance(b[i], paths[i]) < Distance(a[i], paths[i])) ==>
              TotalDistance(paths, b, n) < TotalDistance(paths, a, n)
  {
    hide Distance;
    if n > 0 {
      TotalSmaller(paths, a, b, n - 1);
    }
  }

  /** A pass after which some name still misses something has changed that name. */
  lemma PassIsCloser(paths: seq<string>, names: seq<string>, r: seq<string>, indices: set<int>, i: int)
    requires Stepped(paths, names, r, indices) && i in indices && Misses(paths, r, i)
    ensures TotalDistance(paths, r, |r|) < TotalDistance(paths, names, |names|)
  {
    hide Distance, Appended, Missing;
    forall j | 0 <= j < |r| ensures Distance(r[j], paths[j]) <= Distance(names[j], paths[j]) {
      AppendedIsCloser(names[j], paths[j]);
    }
    AppendedIsCloser(names[i], paths[i]);
    assert Distance(r[i], paths[i]) < Distance(names[i], paths[i]);
    TotalSmaller(paths, names, r, |r|);
  }

  // ----- What every loop over a set does -----

  /** Folders are only put in front, and only if the code takes something to be missing. */
  predicate Prefixed(paths: seq<string>, start: seq<string>, r: seq<string>, i: int) {
    && |r| == |start| == |paths| && 0 <= i < |r| && EndsWith(r[i], start[i])
    && (Missing(start[i], paths[i]) <= 0 ==> r[i] == start[i])
  }

  /** The first step was made. */
  predicate Begun(paths: seq<string>, start: seq<string>, r: seq<string>, i: int) {
    |r| == |start| == |paths| && 0 <= i < |r| && EndsWith(r[i], Appended(start[i], paths[i]))
  }

  /** Before any pass, or after at least one. */
  ghost predicate Underway(paths: seq<string>, start: seq<string>, r: seq<string>, group: set<int>,
                           indices: set<int>, begun: bool) {
    && |r| == |start| == |paths| && InRange(group, |r|) && indices <= group
    && (forall j :: 0 <= j < |r| && j !in group ==> r[j] == start[j])
    && (forall i :: i in group ==> Prefixed(paths, start, r, i))
    && (if begun then |group| > 1 && forall i :: i in group ==> Begun(paths, start, r, i)
        else r == start && indices == group)
  }

  lemma UnderwayFirst(paths: seq<string>, start: seq<string>, group: set<int>)
    requires |start| == |paths| && InRange(group, |start|)
    ensures Underway(paths, start, start, group, group, false)
  {
    hide Missing;
  }

  lemma NameStep(path: string, start: string, name: string, begun: bool)
    requires EndsWith(name, start) && (Missing(start, path) <= 0 ==> name == start)
    requires if begun then EndsWith(name, Appended(start, path)) else name == start
    ensures var next := Appended(name, path);
            && EndsWith(next, start) && EndsWith(next, Appended(start, path))
            && (Missing(start, path) <= 0 ==> next == start)
  {
    AppendedEndsWith(name, path);
    AppendedIsCloser(name, path);
    EndsWithJoin("", Appended(start, path));
    hide Appended, Missing, EndsWith;
    EndsWithTrans(Appended(name, path), name, start);
    if begun {
      EndsWithTrans(Appended(name, path), name, Appended(start, path));
    }
  }

  lemma UnderwayNext(paths: seq<string>, start: seq<string>, names: seq<string>, r: seq<string>,
                     group: set<int>, indices: set<int>, kept: set<int>, begun: bool)
    requires Underway(paths, start, names, group, indices, begun) && Stepped(paths, names, r, indices)
    requires kept <= indices && |indices| > 1
    ensures Underway(paths, start, r, group, kept, true)
  {
    hide Appended, Missing, EndsWith;
    forall i | i in group ensures Prefixed(paths, start, r, i) && Begun(paths, start, r, i) {
      assert Prefixed(paths, start, names, i) && (begun ==> Begun(paths, start, names, i));
      if i in indices {
        NameStep(paths[i], start[i], names[i], begun);
      }
    }
    FewerMembers(indices, group);
  }

  lemma {:induction false} FewerMembers(a: set<int>, b: set<int>)
    requires a <= b
    ensures |a| <= |b|
  {
    if a != {} {
      assert exists n: int :: n in a by {
        assert (forall n: int :: n !in a) ==> a == {};
      }
      var i: int :| i in a;
      FewerMembers(a - {i}, b - {i});
    }
  }

  // ----- The whole loop over a set -----

  /** The members of the set have the same name, a suffix of each of their paths. */
  ghost predicate StartSet(paths: seq<string>, names: seq<string>, group: set<int>) {
    && |paths| == |names| && AllFit(paths, names, group)
    && (forall i, j :: i in group && j in group ==> SameName(names, i, j))
  }

  /** What is known of a set whose loop has ended. */
  ghost predicate SetDone(paths: seq<string>, start: seq<string>, r: seq<string>, group: set<int>) {
    && |r| == |start| == |paths| && InRange(group, |r|)
    && (forall i :: i in group ==> Prefixed(paths, start, r, i))
    && (forall i :: group == {i} ==> r[i] == start[i])
    && (forall i, j :: i in group && j in group && i != j ==> Begun(paths, start, r, i))
    && (StartSet(paths, start, group) ==>
          AllFit(paths, r, group) && ToldApart(paths, r, group)
          && forall i :: i in group ==> Shortest(paths, start, r, group, i))
  }

  /** The `while` loop for one index set. */
  method DisambiguateSet(paths: seq<string>, names: seq<string>, group: set<int>) returns (r: seq<string>)
    requires |paths| == |names| && InRange(group, |names|)
    ensures SetDone(paths, names, r, group)
    ensures |r| == |names| && forall j :: 0 <= j < |r| && j !in group ==> r[j] == names[j]
  {
    hide *;
    r := names;
    var indices := group;
    ghost var k := StartDepth(names, group);
    ghost var begun := false;
    UnderwayFirst(paths, names, group);
    if StartSet(paths, names, group) {
      AtStart(paths, names, group, k);
      AccountedFirst(paths, names, group);
    }
    while |indices| > 1
      invariant |r| == |names| && Underway(paths, names, r, group, indices, begun)
      invariant StartSet(paths, names, group) ==>
                  InPlay(paths, names, r, group, indices, k) && Accounted(paths, names, r, group, indices)
      decreases TotalDistance(paths, r, |r|)
    {
      UnderwayIs(paths, names, r, group, indices, begun);
      ghost var before := r;
      r := AppendAll(paths, r, indices);
      SteppedIs(paths, before, r, indices);
      var kept, canProceed := Prune(paths, r, indices);
      KeptAreIn(r, indices, kept);
      UnderwayNext(paths, names, before, r, group, indices, kept, begun);
      if StartSet(paths, names, group) {
        InPlayFits(paths, names, before, group, indices, k);
        PassedIs(paths, before, r, indices);
        PassKeeps(paths, names, before, r, group, indices, kept, k);
        FewerMembers(indices, group);
        AccountedNext(paths, names, before, r, group, indices, kept, k);
      }
      if !canProceed {
        if StartSet(paths, names, group) {
          StuckIsDone(paths, names, before, r, group, indices, kept, k);
          AllShortest(paths, names, r, group, kept);
        }
        UnderwayIs(paths, names, r, group, kept, true);
        NowDone(paths, names, r, group, kept, true);
        return;
      }
      ghost var i :| i in indices && Misses(paths, r, i);
      PassIsCloser(paths, before, r, indices, i);
      indices, k, begun := kept, k + 1, true;
    }
    if StartSet(paths, names, group) {
      OneLeft(paths, names, r, group, indices, k);
      InPlayFits(paths, names, r, group, indices, k);
      AllShortest(paths, names, r, group, indices);
    }
    UnderwayIs(paths, names, r, group, indices, begun);
    NowDone(paths, names, r, group, indices, begun);
  }

  ghost function StartDepth(names: seq<string>, group: set<int>): nat
    requires InRange(group, |names|)
  {
    if i :| i in group then Slashes(names[i]) else 0
  }

  lemma AtStart(paths: seq<string>, names: seq<string>, group: set<int>, k: nat)
    requires StartSet(paths, names, group) && InRange(group, |names|) && k == StartDepth(names, group)
    ensures InPlay(paths, names, names, group, group, k)
  {
    hide Slashes, Target, Fits;
    assert forall i :: i in group ==> SameName(names, i, i);
  }

  lemma UnderwayIs(paths: seq<string>, start: seq<string>, r: seq<string>, group: set<int>, indices: set<int>,
                   begun: bool)
    requires Underway(paths, start, r, group, indices, begun)
    ensures |r| == |start| == |paths| && InRange(group, |r|) && InRange(indices, |r|) && indices <= group
    ensures forall j :: 0 <= j < |r| && j !in group ==> r[j] == start[j]
  {
  }

  lemma SteppedIs(paths: seq<string>, names: seq<string>, r: seq<string>, indices: set<int>)
    requires Stepped(paths, names, r, indices)
    ensures |r| == |names| == |paths| && InRange(indices, |r|)
  {
  }

  /** A pass is one over names that fit. */
  lemma PassedIs(paths: seq<string>, names: seq<string>, r: seq<string>, indices: set<int>)
    requires AllFit(paths, names, indices) && Stepped(paths, names, r, indices)
    ensures Passed(paths, names, r, indices)
  {
    hide Appended, Extended, IsSuffix, HasBase, Missing;
    forall i | i in indices ensures Grown(paths, names, r, i) {
      assert Fits(paths, names, i);
      AppendedIsExtended(names[i], paths[i]);
    }
  }

  lemma InPlayFits(paths: seq<string>, start: seq<string>, r: seq<string>, group: set<int>, indices: set<int>, k: nat)
    requires InPlay(paths, start, r, group, indices, k)
    ensures |r| == |start| && indices <= group && AllFit(paths, r, group) && AllFit(paths, r, indices)
    ensures forall j :: 0 <= j < |r| && j !in group ==> r[j] == start[j]
  {
    FewerFit(paths, r, group, indices);
  }

  lemma KeptAreIn(r: seq<string>, indices: set<int>, kept: set<int>)
    requires kept == set i | i in indices && Ambiguous(r, indices, i)
    ensures kept <= indices
  {
  }

  /** If no name misses anything, every name is the whole path, and names still equal belong to the same file. */
  lemma StuckIsDone(paths: seq<string>, start: seq<string>, names: seq<string>, r: seq<string>,
                    group: set<int>, indices: set<int>, kept: set<int>, k: nat)
    requires InPlay(paths, start, r, group, kept, k + 1) && kept <= indices
    requires forall i :: i in indices ==> !Misses(paths, r, i)
    ensures AllFit(paths, r, group) && ToldApart(paths, r, group)
    ensures forall i :: i in kept ==> !CanGrow(paths, r, i)
  {
    InPlayFits(paths, start, r, group, kept, k + 1);
    hide InPlay, IsSuffix, HasBase, Missing, ToldApart;
    forall i | i in kept ensures !CanGrow(paths, r, i) {
      assert Fits(paths, r, i) && !Misses(paths, r, i);
      AppendedIsExtended(r[i], paths[i]);
    }
    NothingCanGrow(paths, start, r, group, kept, k + 1);
  }

  lemma NowDone(paths: seq<string>, start: seq<string>, r: seq<string>, group: set<int>, indices: set<int>, begun: bool)
    requires Underway(paths, start, r, group, indices, begun) && (!begun ==> |indices| <= 1)
    requires StartSet(paths, start, group) ==>
               AllFit(paths, r, group) && ToldApart(paths, r, group)
               && forall i :: i in group ==> Shortest(paths, start, r, group, i)
    ensures SetDone(paths, start, r, group)
  {
    hide StartSet, AllFit, ToldApart, Shortest, Prefixed, Begun;
    forall i, j | i in group && j in group && i != j ensures Begun(paths, start, r, i) {
      if !begun {
        FewerMembers({i, j}, group);
      }
    }
  }

  // ----- The index sets -----

  function Bearers(names: seq<string>, count: nat, name: string): set<int>
    requires count <= |names|
  {
    set j | 0 <= j < count && names[j] == name
  }

  /** The first loop: the indices of each name, in order of first appearance. */
  method IndexSets(names: seq<string>) returns (sets: seq<set<int>>, ghost keys: seq<string>)
    ensures |sets| == |keys|
    ensures forall k :: 0 <= k < |sets| ==> sets[k] == Bearers(names, |names|, keys[k])
    ensures forall k, l :: 0 <= k < l < |keys| ==> keys[k] != keys[l]
    ensures forall j :: 0 <= j < |names| ==> names[j] in keys
    ensures forall k, i, j :: 0 <= k < |sets| && i in sets[k] && 0 <= i < |names| ==>
            (j in sets[k] <==> SameName(names, i, j))
  {
    sets, keys := [], [];
    var index: map<string, nat> := map[];
    for i := 0 to |names|
      invariant |sets| == |keys|
      invariant forall n :: n in index <==> n in keys
      invariant forall n :: n in index ==> index[n] < |keys| && keys[index[n]] == n
      invariant forall k, l :: 0 <= k < l < |keys| ==> keys[k] != keys[l]
      invariant forall k :: 0 <= k < |sets| ==> sets[k] == Bearers(names, i, keys[k])
      invariant forall j :: 0 <= j < i ==> names[j] in keys
    {
      var name := names[i];
      if name !in index {
        sets := sets + [{}];
        keys := keys + [name];
        index := index[name := |sets| - 1];
      }
      sets := sets[index[name] := sets[index[name]] + {i}];
    }
  }

  lemma BearersAlike(names: seq<string>, name: string)
    ensures forall i :: i in Bearers(names, |names|, name) ==> 0 <= i < |names| && names[i] == name
    ensures forall i, j :: i in Bearers(names, |names|, name) && j in Bearers(names, |names|, name) ==>
            SameName(names, i, j)
    ensures forall i :: 0 <= i < |names| && names[i] == name ==> i in Bearers(names, |names|, name)
  {
  }

  // ----- All the sets -----

  /** The sets up to `done` are done, the others still have their start names. */
  ghost predicate DoneUpTo(paths: seq<string>, names: seq<string>, r: seq<string>, keys: seq<string>, done: nat)
    requires done <= |keys|
  {
    && |r| == |names| == |paths|
    && (forall k :: 0 <= k < done ==> SetDone(paths, names, r, Bearers(names, |names|, keys[k])))
    && (forall i :: 0 <= i < |r| && names[i] !in keys[..done] ==> r[i] == names[i])
  }

  /** Only the names of its members matter to a set. */
  lemma SetDoneOnly(paths: seq<string>, start: seq<string>, s: seq<string>, a: seq<string>, r: seq<string>,
                    group: set<int>)
    requires SetDone(paths, start, a, group) && |r| == |a| && |s| == |start|
    requires forall i :: i in group && 0 <= i < |r| ==> r[i] == a[i] && s[i] == start[i]
    ensures SetDone(paths, s, r, group)
  {
    forall i | i in group ensures Prefixed(paths, s, r, i) {
      assert Prefixed(paths, start, a, i);
    }
    forall i, j | i in group && j in group && i != j ensures Begun(paths, s, r, i) {
      assert Begun(paths, start, a, i);
    }
    hide Missing, Appended, EndsWith, IsSuffix, HasBase, Prefixed, Begun;
    if StartSet(paths, s, group) {
      forall i, j | i in group && j in group ensures SameName(start, i, j) {
        assert SameName(s, i, j);
      }
      forall i | i in group ensures Fits(paths, start, i) {
        assert Fits(paths, s, i);
      }
      forall i | i in group ensures Fits(paths, r, i) {
        assert Fits(paths, a, i);
      }
      assert ToldApart(paths, r, group);
      forall i | i in group ensures Shortest(paths, s, r, group, i) {
        assert Shortest(paths, start, a, group, i);
      }
    }
  }

  lemma SetNext(paths: seq<string>, names: seq<string>, before: seq<string>, r: seq<string>, keys: seq<string>, k: nat)
    requires k < |keys| && DoneUpTo(paths, names, before, keys, k) && |r| == |names|
    requires forall a, b :: 0 <= a < b < |keys| ==> keys[a] != keys[b]
    requires SetDone(paths, before, r, Bearers(names, |names|, keys[k]))
    requires forall j :: 0 <= j < |r| && j !in Bearers(names, |names|, keys[k]) ==> r[j] == before[j]
    ensures DoneUpTo(paths, names, r, keys, k + 1)
  {
    hide SetDone, Bearers;
    BearersAlike(names, keys[k]);
    assert keys[..k + 1] == keys[..k] + [keys[k]] && keys[k] !in keys[..k];
    SetDoneOnly(paths, before, names, r, r, Bearers(names, |names|, keys[k]));
    forall l | 0 <= l < k ensures SetDone(paths, names, r, Bearers(names, |names|, keys[l])) {
      BearersAlike(names, keys[l]);
      assert SetDone(paths, names, before, Bearers(names, |names|, keys[l]));
      SetDoneOnly(paths, names, names, before, r, Bearers(names, |names|, keys[l]));
    }
  }

  predicate Alone(names: seq<string>, i: int) {
    0 <= i < |names| && forall j :: 0 <= j < |names| && names[j] == names[i] ==> j == i
  }

  /** What is known of the result, whatever the paths and names are. */
  ghost predicate Outcome(paths: seq<string>, names: seq<string>, r: seq<string>) {
    && |r| == |names| == |paths|
    && (forall i :: 0 <= i < |r| ==> Prefixed(paths, names, r, i))
    && (forall i :: Alone(names, i) ==> r[i] == names[i])
    && (forall i, j :: i != j && SameName(names, i, j) ==> Begun(paths, names, r, i))
    && (forall n :: StartSet(paths, names, Bearers(names, |names|, n)) ==>
          && AllFit(paths, r, Bearers(names, |names|, n)) && ToldApart(paths, r, Bearers(names, |names|, n))
          && forall i :: 0 <= i < |r| && names[i] == n ==> Shortest(paths, names, r, Bearers(names, |names|, n), i))
  }

  lemma DoneIsOutcome(paths: seq<string>, names: seq<string>, r: seq<string>, keys: seq<string>)
    requires DoneUpTo(paths, names, r, keys, |keys|) && forall j :: 0 <= j < |names| ==> names[j] in keys
    ensures Outcome(paths, names, r)
  {
    hide Prefixed, Begun, StartSet, AllFit, ToldApart, Shortest, Bearers;
    forall i | 0 <= i < |r| ensures SetDone(paths, names, r, Bearers(names, |names|, names[i])) {
      var k :| 0 <= k < |keys| && keys[k] == names[i];
    }
    forall i, j | 0 <= i < |r| && i != j && SameName(names, i, j) ensures Begun(paths, names, r, i) {
      BearersAlike(names, names[i]);
    }
    forall i | 0 <= i < |r| ensures Prefixed(paths, names, r, i) && (Alone(names, i) ==> r[i] == names[i]) {
      BearersAlike(names, names[i]);
      if Alone(names, i) {
        assert forall j :: j in Bearers(names, |names|, names[i]) <==> j == i;
        assert Bearers(names, |names|, names[i]) == {i};
      }
    }
    forall n | StartSet(paths, names, Bearers(names, |names|, n))
      ensures AllFit(paths, r, Bearers(names, |names|, n)) && ToldApart(paths, r, Bearers(names, |names|, n))
      ensures forall i :: 0 <= i < |r| && names[i] == n ==> Shortest(paths, names, r, Bearers(names, |names|, n), i)
    {
      BearersAlike(names, n);
      if i :| i in Bearers(names, |names|, n) {
        assert names[i] == n;
      } else {
        NoneApart(paths, r, Bearers(names, |names|, n));
      }
    }
  }

  lemma NoneApart(paths: seq<string>, r: seq<string>, group: set<int>)
    requires forall i :: i !in group
    ensures AllFit(paths, r, group) && ToldApart(paths, r, group)
  {
  }

  // ----- When the files are told apart -----

  /**
    The names to start with: suffixes of their paths, the same for the same file, and no name that is shared
    and could grow into another start name.
   */
  ghost predicate StartNames(paths: seq<string>, names: seq<string>) {
    && |paths| == |names|
    && (forall i :: 0 <= i < |names| ==> IsSuffix(names[i], Target(paths, i)))
    && (forall i, j :: SameFile(paths, i, j) ==> SameName(names, i, j))
    && (forall i, j :: 0 <= i < |names| && 0 <= j < |names| && names[i] != names[j] && IsSuffix(names[i], names[j]) ==>
          names[i] == Target(paths, i) || Alone(names, i))
  }

  /** Every name is cut at the same depth, or is a whole path that is not that deep. */
  ghost predicate AtDepth(paths: seq<string>, names: seq<string>, k: nat) {
    && |paths| == |names|
    && forall i :: 0 <= i < |names| ==>
         && IsSuffix(names[i], Target(paths, i))
         && (Slashes(names[i]) == k || (Slashes(names[i]) < k && names[i] == Target(paths, i)))
  }

  /** Names that are all extension are shared only by one file at the root. */
  ghost predicate DotFilesAgree(paths: seq<string>, names: seq<string>) {
    |paths| == |names| &&
    forall i, j :: i != j && SameName(names, i, j) && !HasBase(names[i]) ==>
      Target(paths, i) == Target(paths, j) && |Target(paths, i)| <= |names[i]| + 1
  }

  /** No file that is all extension lies in a folder without a name. */
  predicate FoldersNamed(paths: seq<string>, names: seq<string>) {
    |paths| == |names| &&
    forall i :: 0 <= i < |names| && !HasBase(names[i]) ==>
      var p := Target(paths, i); |p| > |names[i]| + 1 ==> p[|p| - |names[i]| - 2] != '/'
  }

  /** The results are suffixes of the paths, and equal exactly where the paths are. */
  ghost predicate AllToldApart(paths: seq<string>, r: seq<string>) {
    && |paths| == |r|
    && (forall i :: 0 <= i < |r| ==> IsSuffix(r[i], Target(paths, i)))
    && (forall i, j :: 0 <= i < |r| && 0 <= j < |r| ==> (SameName(r, i, j) <==> SameFile(paths, i, j)))
  }

  /** Names of one file cut at one depth are the same, and none is part of another. */
  lemma DepthIsStart(paths: seq<string>, names: seq<string>, k: nat)
    requires AtDepth(paths, names, k)
    ensures StartNames(paths, names)
  {
    hide IsSuffix, Slashes, Target;
    forall i, j | SameFile(paths, i, j) ensures SameName(names, i, j) {
      var a, b := if |names[i]| <= |names[j]| then i else j, if |names[i]| <= |names[j]| then j else i;
      SuffixOfSuffix(names[a], names[b], Target(paths, a));
      SuffixLength(names[b], Target(paths, b));
      if names[a] != names[b] {
        SuffixSlashes(names[a], names[b]);
      }
    }
    forall i, j | 0 <= i < |names| && 0 <= j < |names| && names[i] != names[j] && IsSuffix(names[i], names[j])
      ensures names[i] == Target(paths, i)
    {
      SuffixSlashes(names[i], names[j]);
    }
  }

  lemma SuffixLength(a: string, b: string)
    requires IsSuffix(a, b)
    ensures |a| <= |b| && (|a| == |b| ==> a == b)
  {
  }

  /** Where it does not miss anything, a name that is all extension is the file at the root. */
  lemma AtTheRoot(n: string, path: string)
    requires IsSuffix(n, WithoutRes(path)) && !HasBase(n)
    ensures |WithoutRes(path)| <= |n| + 1 <==> Missing(n, path) <= 0
    ensures |WithoutRes(path)| > |n| + 1 ==>
              Missing(n, path) > 0 && Appended(n, path) == Folder(Before(n, WithoutRes(path))) + n
  {
    var p := WithoutRes(path);
    hide HasBase, Folder, Appended, Missing, WithoutRes;
    if n != p {
      SuffixSplit(n, p);
      AllExtension(Before(n, p), n, path);
    } else {
      AppendedMeans(n, path, p, 0);
    }
  }

  /** The names that share a start name. */
  lemma SetToldApart(paths: seq<string>, names: seq<string>, r: seq<string>, i: int, j: int)
    requires Outcome(paths, names, r) && StartNames(paths, names) && DotFilesAgree(paths, names)
    requires SameName(names, i, j)
    ensures IsSuffix(r[i], Target(paths, i)) && (SameName(r, i, j) <==> SameFile(paths, i, j))
  {
    var n := names[i];
    var group := Bearers(names, |names|, n);
    BearersAlike(names, n);
    hide IsSuffix, HasBase, Bearers, Missing, Appended;
    if HasBase(n) {
      assert StartSet(paths, names, group);
      assert Fits(paths, r, i);
    } else if i == j {
      assert Prefixed(paths, names, r, i);
      if Alone(names, i) {
        assert r[i] == names[i];
      } else {
        var l :| 0 <= l < |names| && names[l] == names[i] && l != i;
        assert SameName(names, i, l);
        AtTheRoot(n, paths[i]);
      }
    } else {
      assert Prefixed(paths, names, r, i) && Prefixed(paths, names, r, j);
      AtTheRoot(n, paths[i]);
      AtTheRoot(n, paths[j]);
    }
  }

  lemma GrownIsSuffix(n: string, r: string, p: string)
    requires IsSuffix(n, p) && IsSuffix(r, p) && EndsWith(r, n)
    ensures IsSuffix(n, r)
  {
    SuffixOfSuffix(n, r, p);
  }

  /** Different start names stay different. */
  lemma SetsStayApart(paths: seq<string>, names: seq<string>, r: seq<string>, i: int, j: int)
    requires Outcome(paths, names, r) && StartNames(paths, names) && 0 <= i < |r| && 0 <= j < |r|
    requires IsSuffix(r[i], Target(paths, i)) && IsSuffix(r[j], Target(paths, j))
    requires names[i] != names[j] && |names[i]| <= |names[j]|
    ensures r[i] != r[j]
  {
    assert Prefixed(paths, names, r, i) && Prefixed(paths, names, r, j);
    GrownIsSuffix(names[i], r[i], Target(paths, i));
    GrownIsSuffix(names[j], r[j], Target(paths, j));
    hide IsSuffix, Missing, Target, SameFile, SameName;
    SuffixLength(names[j], r[j]);
    SuffixLength(r[i], Target(paths, i));
    if r[i] == r[j] {
      SuffixOfSuffix(names[i], names[j], r[i]);
    }
  }

  lemma ApartIfDotFilesAgree(paths: seq<string>, names: seq<string>, r: seq<string>)
    requires Outcome(paths, names, r) && StartNames(paths, names) && DotFilesAgree(paths, names)
    ensures AllToldApart(paths, r)
  {
    hide Outcome, StartNames, DotFilesAgree, IsSuffix, Target;
    assert |r| == |names| == |paths| by {
      OutcomeSizes(paths, names, r);
    }
    forall i | 0 <= i < |r| ensures IsSuffix(r[i], Target(paths, i)) {
      SetToldApart(paths, names, r, i, i);
    }
    forall i, j | 0 <= i < |r| && 0 <= j < |r| ensures SameName(r, i, j) <==> SameFile(paths, i, j) {
      if names[i] == names[j] {
        SetToldApart(paths, names, r, i, j);
      } else {
        if |names[i]| <= |names[j]| {
          SetsStayApart(paths, names, r, i, j);
        } else {
          SetsStayApart(paths, names, r, j, i);
        }
        SameFileSameName(paths, names, i, j);
      }
    }
  }

  lemma OutcomeSizes(paths: seq<string>, names: seq<string>, r: seq<string>)
    requires Outcome(paths, names, r)
    ensures |r| == |names| == |paths|
  {
  }

  lemma SameFileSameName(paths: seq<string>, names: seq<string>, i: int, j: int)
    requires StartNames(paths, names)
    ensures SameFile(paths, i, j) ==> SameName(names, i, j)
  {
  }

  /** The character before the name is that of any longer text the result ends with. */
  lemma CharBefore(r: string, a: string, n: string)
    requires EndsWith(r, a) && |a| > |n|
    ensures |r| > |n| && r[|r| - |n| - 1] == a[|a| - |n| - 1]
  {
    assert r[|r| - |a|..][|a| - |n| - 1] == r[|r| - |n| - 1];
  }

  lemma SuffixEnds(r: string, p: string)
    requires IsSuffix(r, p)
    ensures EndsWith(p, r)
  {
  }

  lemma BeforeChar(n: string, p: string)
    requires IsSuffix(n, p) && |p| > |n| + 1
    ensures n != p && Before(n, p) != "" && p[|p| - |n| - 1] == '/'
    ensures Before(n, p)[|Before(n, p)| - 1] == p[|p| - |n| - 2]
  {
  }

  /** A name that lost its slash is no suffix of its path any more. */
  lemma LostSlash(n: string, r: string, path: string)
    requires IsSuffix(n, WithoutRes(path)) && !HasBase(n) && |WithoutRes(path)| > |n| + 1
    requires WithoutRes(path)[|WithoutRes(path)| - |n| - 2] != '/' && EndsWith(r, Appended(n, path))
    ensures !IsSuffix(r, WithoutRes(path))
  {
    hide *;
    var p := WithoutRes(path);
    BeforeChar(n, p);
    var q := Before(n, p);
    AtTheRoot(n, path);
    FolderEnds(q);
    JoinedChar(Folder(q), n);
    CharBefore(r, Folder(q) + n, n);
    if IsSuffix(r, p) {
      SuffixEnds(r, p);
      CharBefore(p, r, n);
    }
  }

  lemma ApartOnlyIfDotFilesAgree(paths: seq<string>, names: seq<string>, r: seq<string>)
    requires Outcome(paths, names, r) && StartNames(paths, names) && FoldersNamed(paths, names)
    requires AllToldApart(paths, r)
    ensures DotFilesAgree(paths, names)
  {
    forall i, j | i != j && SameName(names, i, j) && !HasBase(names[i])
      ensures Target(paths, i) == Target(paths, j) && |Target(paths, i)| <= |names[i]| + 1
    {
      DotFileAtRoot(paths, names, r, i, j);
      DotFileAtRoot(paths, names, r, j, i);
      hide IsSuffix, HasBase, Missing, Appended;
      assert SameName(r, i, j);
      assert SameFile(paths, i, j);
    }
  }

  lemma DotFileAtRoot(paths: seq<string>, names: seq<string>, r: seq<string>, i: int, j: int)
    requires Outcome(paths, names, r) && StartNames(paths, names) && FoldersNamed(paths, names)
    requires AllToldApart(paths, r) && i != j && SameName(names, i, j) && !HasBase(names[i])
    ensures |Target(paths, i)| <= |names[i]| + 1 && 0 <= i < |r| && r[i] == names[i]
  {
    hide IsSuffix, HasBase, Missing, Appended, StartSet, AllFit, ToldApart, Shortest, WithoutRes;
    assert Begun(paths, names, r, i) && Prefixed(paths, names, r, i);
    AtTheRoot(names[i], paths[i]);
    if |Target(paths, i)| > |names[i]| + 1 {
      LostSlash(names[i], r[i], paths[i]);
    }
  }

  /**
    `disambiguate_filenames`, for any paths and names.  For start names that are suffixes of their paths, the
    results are suffixes of the paths and tell the files apart if names that are all extension are shared
    only by one file at the root, and, unless such a file lies in a folder without a name, only then.
   */
  method DisambiguateFilenames(paths: seq<string>, names: seq<string>) returns (r: seq<string>)
    ensures |r| == |names|
    ensures |paths| != |names| ==> r == names
    ensures |paths| == |names| ==> Outcome(paths, names, r)
    ensures StartNames(paths, names) && DotFilesAgree(paths, names) ==> AllToldApart(paths, r)
    ensures StartNames(paths, names) && FoldersNamed(paths, names) ==>
            (AllToldApart(paths, r) <==> DotFilesAgree(paths, names))
  {
    r := names;
    if |paths| != |names| {
      return;
    }
    hide *;
    r := RunSets(paths, names);
    OutcomeSizes(paths, names, r);
    if StartNames(paths, names) && DotFilesAgree(paths, names) {
      ApartIfDotFilesAgree(paths, names, r);
    }
    if StartNames(paths, names) && FoldersNamed(paths, names) && AllToldApart(paths, r) {
      ApartOnlyIfDotFilesAgree(paths, names, r);
    }
  }

  /** The loop over the index sets. */
  method RunSets(paths: seq<string>, names: seq<string>) returns (r: seq<string>)
    requires |paths| == |names|
    ensures Outcome(paths, names, r)
  {
    hide *;
    r := names;
    var sets, keys := IndexSets(names);
    NothingDone(paths, names, keys);
    for k := 0 to |sets|
      invariant |r| == |names| && DoneUpTo(paths, names, r, keys, k)
    {
      ghost var before := r;
      BearersInRange(names, keys[k]);
      r := DisambiguateSet(paths, r, sets[k]);
      SetNext(paths, names, before, r, keys, k);
    }
    DoneIsOutcome(paths, names, r, keys);
  }

  lemma BearersInRange(names: seq<string>, name: string)
    ensures InRange(Bearers(names, |names|, name), |names|)
  {
  }

  lemma NothingDone(paths: seq<string>, names: seq<string>, keys: seq<string>)
    requires |paths| == |names|
    ensures DoneUpTo(paths, names, names, keys, 0)
  {
  }

  /** Two files that are all extension, in two folders, and a third with the name the first one gets. */
  lemma DotFilesDisagree()
    ensures var paths, names := ["/x/.gd", "/y/.gd", "/z/x.gd"], [".gd", ".gd", "x.gd"];
            StartNames(paths, names) && FoldersNamed(paths, names) && !DotFilesAgree(paths, names)
  {
    hide *;
    PathsAre();
    DotFile();
    StemIsThere();
    FolderAndName('x', ".gd");
    FolderAndName('y', ".gd");
    FolderAndName('z', "x.gd");
    NoSlashes(".gd");
    NoSlashes("x.gd");
    Disagreeing("/x/.gd", "/y/.gd", "/z/x.gd", ".gd", "x.gd");
  }

  lemma PathsAre()
    ensures "/x/.gd" == "/" + ['x'] + "/" + ".gd" && "/y/.gd" == "/" + ['y'] + "/" + ".gd"
    ensures "/z/x.gd" == "/" + ['z'] + "/" + "x.gd" && "/x/.gd" != "/y/.gd"
  {
    assert "/x/.gd"[1] == 'x' && "/y/.gd"[1] == 'y';
  }

  lemma Disagreeing(a: string, b: string, c: string, n: string, m: string)
    requires WithoutRes(a) == a && WithoutRes(b) == b && WithoutRes(c) == c && a != b
    requires IsSuffix(n, a) && IsSuffix(n, b) && IsSuffix(m, c) && Slashes(n) == 0 && Slashes(m) == 0
    requires !HasBase(n) && HasBase(m) && |a| == |n| + 3 == |b| && a[|a| - |n| - 2] != '/' && b[|b| - |n| - 2] != '/'
    ensures StartNames([a, b, c], [n, n, m]) && FoldersNamed([a, b, c], [n, n, m])
            && !DotFilesAgree([a, b, c], [n, n, m])
  {
    var paths, names := [a, b, c], [n, n, m];
    hide HasBase, Slashes, IsSuffix, WithoutRes;
    assert AtDepth(paths, names, 0);
    DepthIsStart(paths, names, 0);
    hide StartNames;
    assert SameName(names, 0, 1);
  }

  lemma FolderAndName(c: char, n: string)
    requires c != '/'
    ensures var p := "/" + [c] + "/" + n;
            WithoutRes(p) == p && IsSuffix(n, p) && |p| == |n| + 3 && p[|p| - |n| - 2] == c
  {
    var p := "/" + [c] + "/" + n;
    assert "res://"[0] == 'r' && p[0] == '/';
    assert p[|p| - |n|..] == n;
  }

  lemma StemIsThere()
    ensures HasBase("x.gd")
  {
    assert "x.gd"[0] == 'x' && "x.gd"[1] == '.' && "x.gd"[2] == 'g' && "x.gd"[3] == 'd';
    LastIndexAt("x.gd", '.', 1);
    LastIndexAt("x.gd", '/', -1);
    LastIndexAt("x.gd", '\\', -1);
  }
}
