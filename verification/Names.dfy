/**
  Unique names (`NameUtils::create_unique_name` of `src/common/name_utils.cpp`, the loop of
  `Orchestration::promote_to_variable`): numbered candidates are tried until one is free.
 */
module Names {
  import opened Stores

  // ----- Numbered names -----

  function Digit(d: nat): char
    requires d < 10
  {
    '0' + d as char
  }

  /** The decimal digits of a number, as a format string prints it. */
  function Decimal(n: nat): (s: string)
    ensures s != []
  {
    if n < 10 then [Digit(n)] else Decimal(n / 10) + [Digit(n % 10)]
  }

  lemma {:induction false} DecimalInjective(a: nat, b: nat)
    requires Decimal(a) == Decimal(b)
    ensures a == b
  {
    var s, t := Decimal(a), Decimal(b);
    assert s[|s| - 1] == Digit(a % 10) && t[|t| - 1] == Digit(b % 10);
    assert a >= 10 ==> s[..|s| - 1] == Decimal(a / 10);
    assert b >= 10 ==> t[..|t| - 1] == Decimal(b / 10);
    if a >= 10 && b >= 10 {
      DecimalInjective(a / 10, b / 10);
    }
  }

  predicate AreDigits(s: string) {
    forall i :: 0 <= i < |s| ==> '0' <= s[i] <= '9'
  }

  /** Digits, with no zero in front of others. */
  predicate IsNumeral(s: string) {
    s != [] && AreDigits(s) && (s[0] == '0' ==> |s| == 1)
  }

  /** The number that digits stand for in base 10. */
  function Value(s: string): nat
    requires AreDigits(s)
  {
    if s == [] then 0 else Value(s[..|s| - 1]) * 10 + (s[|s| - 1] as int - '0' as int)
  }

  /** The printed digits are a numeral that stands for the number. */
  lemma {:induction false} DecimalReads(n: nat)
    ensures IsNumeral(Decimal(n)) && Value(Decimal(n)) == n
    ensures n > 0 ==> Decimal(n)[0] != '0'
  {
    var s := Decimal(n);
    if n >= 10 {
      DecimalReads(n / 10);
      assert s[..|s| - 1] == Decimal(n / 10) && s[|s| - 1] == Digit(n % 10);
    } else {
      assert Value(s[..0]) == 0;
    }
  }

  /** And every numeral is printed so. */
  lemma {:induction false} NumeralPrints(s: string)
    requires IsNumeral(s)
    ensures Decimal(Value(s)) == s
    ensures s != "0" ==> Value(s) > 0
  {
    var init, d := s[..|s| - 1], s[|s| - 1] as int - '0' as int;
    if |s| == 1 {
      assert Value(init) == 0 && s == [Digit(d)];
    } else {
      NumeralPrints(init);
      assert init != "0" by {
        assert init[0] == s[0];
      }
      assert Value(s) / 10 == Value(init) && Value(s) % 10 == d;
      assert s == init + [Digit(d)];
    }
  }

  function Candidate(prefix: string, i: nat): string {
    prefix + "_" + Decimal(i)
  }

  /** A candidate is the prefix, an underscore and the numeral of the number. */
  lemma CandidateReads(prefix: string, name: string, i: nat)
    ensures name == Candidate(prefix, i) <==>
            exists d :: IsNumeral(d) && Value(d) == i && name == prefix + "_" + d
  {
    DecimalReads(i);
    if d :| IsNumeral(d) && Value(d) == i && name == prefix + "_" + d {
      NumeralPrints(d);
    }
  }

  /** Numbering an identifier gives an identifier. */
  lemma CandidateIsIdentifier(prefix: string, i: nat)
    requires IsIdentifier(prefix)
    ensures IsIdentifier(Candidate(prefix, i)) && Candidate(prefix, i) != "EventGraph"
  {
    var name := Candidate(prefix, i);
    DecimalReads(i);
    assert name[0] == prefix[0];
    forall k | 0 <= k < |name|
      ensures name[k] == '_' || '0' <= name[k] <= '9' || 'a' <= name[k] <= 'z' || 'A' <= name[k] <= 'Z'
    {
      if k < |prefix| {
        assert name[k] == prefix[k];
      } else if k > |prefix| {
        assert name[k] == Decimal(i)[k - |prefix| - 1];
      }
    }
    assert '0' <= name[|name| - 1] <= '9' && "EventGraph"[9] == 'h';
  }

  lemma CandidateInjective(prefix: string, i: nat, j: nat)
    requires Candidate(prefix, i) == Candidate(prefix, j)
    ensures i == j
  {
    assert Candidate(prefix, i)[|prefix| + 1..] == Decimal(i);
    assert Candidate(prefix, j)[|prefix| + 1..] == Decimal(j);
    DecimalInjective(i, j);
  }

  /** The first `k` candidates. */
  function Candidates(prefix: string, k: nat): set<string> {
    set i: nat | i < k :: Candidate(prefix, i)
  }

  lemma CandidatesMore(prefix: string, k: nat)
    ensures Candidates(prefix, 0) == {}
    ensures Candidates(prefix, k + 1) == Candidates(prefix, k) + {Candidate(prefix, k)}
    ensures Candidate(prefix, k) !in Candidates(prefix, k)
  {
    hide Candidate;
    forall i: nat | i < k ensures Candidate(prefix, i) != Candidate(prefix, k) {
      if Candidate(prefix, i) == Candidate(prefix, k) {
        CandidateInjective(prefix, i, k);
      }
    }
  }

  lemma {:induction false} CandidatesSize(prefix: string, k: nat)
    ensures |Candidates(prefix, k)| == k
  {
    hide *;
    CandidatesMore(prefix, k);
    if k > 0 {
      CandidatesSize(prefix, k - 1);
      CandidatesMore(prefix, k - 1);
    }
  }

  lemma SubsetSize<T>(a: set<T>, b: set<T>)
    requires a <= b
    ensures |a| <= |b|
  {
    assert a + (b - a) == b;
  }

  /** `k` taken candidates take up `k` names, and the prefix itself takes up one more if it is taken. */
  lemma TakenCandidates(prefix: string, taken: set<string>, k: nat)
    requires Candidates(prefix, k) <= taken
    ensures k + (if prefix in taken then 1 else 0) <= |taken|
  {
    CandidatesSize(prefix, k);
    if prefix in taken {
      assert prefix !in Candidates(prefix, k);
      SubsetSize(Candidates(prefix, k) + {prefix}, taken);
    } else {
      SubsetSize(Candidates(prefix, k), taken);
    }
  }

  function NameSet(names: seq<string>): set<string> {
    set n | n in names
  }

  lemma {:induction false} NameSetSize(names: seq<string>)
    ensures |NameSet(names)| <= |names|
  {
    if names == [] {
      assert NameSet(names) == {};
    } else {
      var init, last := names[..|names| - 1], names[|names| - 1];
      assert names == init + [last];
      NameSetSize(init);
      assert NameSet(names) == NameSet(init) + {last};
    }
  }

  /** `k` is the first suffix that gives a name which is not taken. */
  ghost predicate IsFirstFree(prefix: string, taken: set<string>, k: nat) {
    Candidate(prefix, k) !in taken && forall i: nat :: i < k ==> Candidate(prefix, i) in taken
  }

  // ----- The searches -----

  /** `std::numeric_limits<int>::max()` */
  const MAX_TRIES := 0x7fff_ffff

  /**
    `create_unique_name`: the prefix itself if it is free, else the first free numbered name.  The search
    gives up, with an empty name, only on lists longer than there are numbers to try.
   */
  method CreateUniqueName(prefix: string, names: seq<string>) returns (name: string)
    ensures prefix !in names ==> name == prefix
    ensures prefix in names && |names| <= MAX_TRIES ==>
              exists k: nat :: k < |names| && name == Candidate(prefix, k) && IsFirstFree(prefix, NameSet(names), k)
    ensures |names| <= MAX_TRIES ==> name !in names
    ensures name !in names || name == ""
  {
    if prefix !in names {
      return prefix;
    }
    NameSetSize(names);
    for i := 0 to MAX_TRIES
      invariant forall j: nat :: j < i ==> Candidate(prefix, j) in names
    {
      TakenCandidates(prefix, NameSet(names), i);
      name := Candidate(prefix, i);
      if name !in names {
        assert IsFirstFree(prefix, NameSet(names), i);
        return;
      }
    }
    TakenCandidates(prefix, NameSet(names), MAX_TRIES);
    name := "";
  }

  /** The bound on the search is met: some lists need every suffix below their length. */
  lemma SearchBoundIsTight(prefix: string, k: nat) returns (names: seq<string>)
    ensures |names| == k + 1 && prefix in names && IsFirstFree(prefix, NameSet(names), k)
  {
    names := [prefix] + seq(k, i requires 0 <= i < k => Candidate(prefix, i));
    forall i: nat | i < k ensures Candidate(prefix, i) in names {
      assert names[i + 1] == Candidate(prefix, i);
    }
    forall j | 0 <= j < |names| ensures names[j] != Candidate(prefix, k) {
      if j > 0 && Candidate(prefix, j - 1) == Candidate(prefix, k) {
        CandidateInjective(prefix, j - 1, k);
      }
    }
  }

  /** The loop of `promote_to_variable`, which has no bound of its own: it ends at the first free number. */
  method PromotedName(pinName: string, variables: set<string>) returns (name: string)
    ensures exists k: nat :: k <= |variables| && name == Candidate(pinName, k) && IsFirstFree(pinName, variables, k)
    ensures name !in variables
  {
    var index := 1;
    name := Candidate(pinName, 0);
    TakenCandidates(pinName, variables, 0);
    while name in variables
      invariant 1 <= index <= |variables| + 1 && name == Candidate(pinName, index - 1)
      invariant forall i: nat :: i < index - 1 ==> Candidate(pinName, i) in variables
      decreases |variables| + 1 - index
    {
      TakenCandidates(pinName, variables, index);
      name := Candidate(pinName, index);
      index := index + 1;
    }
    assert IsFirstFree(pinName, variables, index - 1);
  }
}
