/** The interviewer dashboard's derived view of the archive: a
    case-insensitive search on candidate name, a stable sort by name, score
    or date in either direction, the column-header toggle that picks the sort,
    and the summary figures (count and average score). All of it is pure. */
module InterviewerTab {
  import opened CandidatesSlice

  // ---------------------------------------------------------------------------
  // Search
  // ---------------------------------------------------------------------------

  /** `toLowerCase`, restricted to ASCII letters. */
  function LowerChar(c: char): char {
    if 'A' <= c <= 'Z' then (c as int + 32) as char else c
  }

  /** `toLowerCase`: no capital letter is left, and every other character
      stays where it was. */
  function Lower(s: string): (r: string)
    ensures |r| == |s|
    ensures forall i :: 0 <= i < |r| ==> !('A' <= r[i] <= 'Z')
    ensures forall i :: 0 <= i < |s| && !('A' <= s[i] <= 'Z') ==> r[i] == s[i]
    ensures forall i :: 0 <= i < |s| && 'A' <= s[i] <= 'Z' ==> r[i] as int == s[i] as int + 32
  {
    seq(|s|, i requires 0 <= i < |s| => LowerChar(s[i]))
  }

  /** Lower-casing an already lower-cased string changes nothing. */
  lemma LowerIdempotent(s: string)
    ensures Lower(Lower(s)) == Lower(s)
  {
  }

  /** `hay.includes(needle)`: needle occurs at some position of hay (the empty
      needle occurs everywhere). */
  predicate Includes(hay: string, needle: string) {
    exists i :: 0 <= i <= |hay| - |needle| && OccursAt(hay, needle, i)
  }

  predicate OccursAt(hay: string, needle: string, i: int)
    requires 0 <= i <= |hay| - |needle|
  {
    hay[i..i + |needle|] == needle
  }

  /** `profile.candidateInfo.name?.toLowerCase().includes(term.toLowerCase())`:
      a missing name never matches, even the empty term. */
  predicate Matches(p: CandidateProfile, term: string)
    ensures Matches(p, term) ==> p.candidateInfo.name.Some? && |term| <= |p.candidateInfo.name.value|
  {
    p.candidateInfo.name.Some? && Includes(Lower(p.candidateInfo.name.value), Lower(term))
  }

  /** The search is case-insensitive in the term: a term matches exactly when
      its lower-cased form does. */
  lemma MatchesLowerTerm(p: CandidateProfile, term: string)
    ensures Matches(p, term) <==> Matches(p, Lower(term))
  {
    LowerIdempotent(term);
  }

  /** The profiles that match the search term, in archive order. Each
      matching profile is kept as often as it occurs; no other is kept. */
  function Filter(profiles: seq<CandidateProfile>, term: string): (r: seq<CandidateProfile>)
    ensures forall x :: multiset(r)[x] == if Matches(x, term) then multiset(profiles)[x] else 0
    ensures forall x :: x in r <==> x in profiles && Matches(x, term)
  {
    if profiles == [] then []
    else
      var rest := Filter(profiles[1..], term);
      assert profiles == [profiles[0]] + profiles[1..];
      if Matches(profiles[0], term) then [profiles[0]] + rest else rest
  }

  /** The filter keeps relative order: filtering a concatenation is the
      concatenation of the filtered parts. */
  lemma {:induction false} FilterAppend(a: seq<CandidateProfile>, b: seq<CandidateProfile>, term: string)
    ensures Filter(a + b, term) == Filter(a, term) + Filter(b, term)
    decreases |a|
  {
    if a == [] {
      assert a + b == b;
    } else {
      assert (a + b)[0] == a[0];
      assert (a + b)[1..] == a[1..] + b;
      FilterAppend(a[1..], b, term);
    }
  }

  /** With an empty search term exactly the profiles that have a name are shown. */
  lemma FilterEmptyTerm(profiles: seq<CandidateProfile>)
    ensures forall x :: x in Filter(profiles, "") <==> x in profiles && x.candidateInfo.name.Some?
  {
    forall x: CandidateProfile | x.candidateInfo.name.Some?
      ensures Matches(x, "")
    {
      assert OccursAt(Lower(x.candidateInfo.name.value), Lower(""), 0);
    }
  }

  // ---------------------------------------------------------------------------
  // Ordering
  // ---------------------------------------------------------------------------

  datatype SortKey = NameKey | ScoreKey | DateKey

  datatype Direction = Asc | Desc

  datatype SortConfig = SortConfig(key: SortKey, direction: Direction)

  const DefaultSortConfig: SortConfig := SortConfig(ScoreKey, Desc)

  /** JavaScript `<` on strings: lexicographic order on characters. */
  predicate StrLess(a: string, b: string)
  {
    if a == [] then b != []
    else if b == [] then false
    else if a[0] != b[0] then a[0] < b[0]
    else StrLess(a[1..], b[1..])
  }

  lemma {:induction false} StrLessIrreflexive(a: string)
    ensures !StrLess(a, a)
  {
    if a != [] {
      StrLessIrreflexive(a[1..]);
    }
  }

  /** A proper prefix sorts before the longer string. */
  lemma {:induction false} StrLessProperPrefix(a: string, b: string)
    requires |a| < |b| && a == b[..|a|]
    ensures StrLess(a, b)
  {
    if a != [] {
      assert a[0] == b[0];
      assert a[1..] == b[1..][..|a| - 1];
      StrLessProperPrefix(a[1..], b[1..]);
    }
  }

  lemma {:induction false} StrLessTransitive(a: string, b: string, c: string)
    requires StrLess(a, b) && StrLess(b, c)
    ensures StrLess(a, c)
  {
    if a != [] && b != [] && c != [] && a[0] == b[0] == c[0] {
      StrLessTransitive(a[1..], b[1..], c[1..]);
    }
  }

  lemma {:induction false} StrLessTotal(a: string, b: string)
    ensures a == b || StrLess(a, b) || StrLess(b, a)
  {
    if a != [] && b != [] && a[0] == b[0] {
      StrLessTotal(a[1..], b[1..]);
      if a[1..] == b[1..] {
        assert a == [a[0]] + a[1..] && b == [b[0]] + b[1..];
      }
    }
  }

  /** `name || ''`: the name sorts as the empty string when it is missing, so
      a missing name and an empty one sort alike. */
  function NameOrEmpty(p: CandidateProfile): string {
    if p.candidateInfo.name.Some? then p.candidateInfo.name.value else ""
  }

  /** A missing name and an empty one sort alike, and a present name sorts
      as itself. */
  lemma NameOrEmptyAlike(p: CandidateProfile)
    ensures NameOrEmpty(p) == "" <==> p.candidateInfo.name.None? || p.candidateInfo.name.value == ""
    ensures p.candidateInfo.name.Some? ==> NameOrEmpty(p) == p.candidateInfo.name.value
  {
  }

  /** aValue < bValue for the chosen column. */
  predicate KeyLess(a: CandidateProfile, b: CandidateProfile, key: SortKey) {
    match key
    case NameKey => StrLess(NameOrEmpty(a), NameOrEmpty(b))
    case ScoreKey => a.score < b.score
    case DateKey => a.date < b.date
  }

  /** a and b have the same value in the chosen column. */
  predicate SameKey(a: CandidateProfile, b: CandidateProfile, key: SortKey) {
    match key
    case NameKey => NameOrEmpty(a) == NameOrEmpty(b)
    case ScoreKey => a.score == b.score
    case DateKey => a.date == b.date
  }

  /** The sort comparator: negative when a goes first, positive when b goes
      first, 0 when they tie. */
  function Compare(a: CandidateProfile, b: CandidateProfile, cfg: SortConfig): (r: int)
    ensures r == 0 <==> SameKey(a, b, cfg.key)
  {
    KeyFacts(a, b, cfg.key);
    if KeyLess(a, b, cfg.key) then (if cfg.direction == Asc then -1 else 1)
    else if KeyLess(b, a, cfg.key) then (if cfg.direction == Asc then 1 else -1)
    else 0
  }

  /** The column order is a strict total order on key values. */
  lemma KeyFacts(a: CandidateProfile, b: CandidateProfile, key: SortKey)
    ensures !(KeyLess(a, b, key) && KeyLess(b, a, key))
    ensures SameKey(a, b, key) <==> !KeyLess(a, b, key) && !KeyLess(b, a, key)
  {
    if key == NameKey {
      StrLessTotal(NameOrEmpty(a), NameOrEmpty(b));
      StrLessIrreflexive(NameOrEmpty(a));
      if StrLess(NameOrEmpty(a), NameOrEmpty(b)) && StrLess(NameOrEmpty(b), NameOrEmpty(a)) {
        StrLessTransitive(NameOrEmpty(a), NameOrEmpty(b), NameOrEmpty(a));
      }
    }
  }

  /** Swapping the arguments negates the comparator. */
  lemma CompareAntisymmetric(a: CandidateProfile, b: CandidateProfile, cfg: SortConfig)
    ensures Compare(a, b, cfg) == -Compare(b, a, cfg)
  {
    KeyFacts(a, b, cfg.key);
  }

  /** "a may stay before b" is transitive, so the comparator is consistent. */
  lemma CompareTransitive(a: CandidateProfile, b: CandidateProfile, c: CandidateProfile, cfg: SortConfig)
    requires Compare(a, b, cfg) <= 0 && Compare(b, c, cfg) <= 0
    ensures Compare(a, c, cfg) <= 0
  {
    KeyFacts(a, b, cfg.key);
    KeyFacts(b, c, cfg.key);
    KeyFacts(a, c, cfg.key);
    if cfg.key == NameKey {
      var na, nb, nc := NameOrEmpty(a), NameOrEmpty(b), NameOrEmpty(c);
      if StrLess(nc, na) {
        if StrLess(nb, na) && StrLess(nc, nb) {
          StrLessTransitive(nc, nb, na);
        }
        StrLessTotal(na, nb);
        StrLessTotal(nb, nc);
        if StrLess(na, nb) && StrLess(nc, na) { StrLessTransitive(nc, na, nb); }
        if StrLess(nb, nc) && StrLess(nc, na) { StrLessTransitive(nb, nc, na); }
      }
      if StrLess(na, nc) {
        StrLessTotal(na, nb);
        StrLessTotal(nb, nc);
        if StrLess(nc, nb) && StrLess(na, nc) { StrLessTransitive(na, nc, nb); }
        if StrLess(nb, na) && StrLess(na, nc) { StrLessTransitive(nb, na, nc); }
      }
    }
  }

  /** Every element may stay before every later one. */
  ghost predicate Sorted(s: seq<CandidateProfile>, cfg: SortConfig) {
    forall i, j :: 0 <= i < j < |s| ==> Compare(s[i], s[j], cfg) <= 0
  }

  /** The elements of s that tie with x, in the order of s. */
  function Ties(s: seq<CandidateProfile>, x: CandidateProfile, cfg: SortConfig): seq<CandidateProfile> {
    if s == [] then []
    else (if Compare(s[0], x, cfg) == 0 then [s[0]] else []) + Ties(s[1..], x, cfg)
  }

  lemma SortedCons(h: CandidateProfile, t: seq<CandidateProfile>, cfg: SortConfig)
    requires Sorted(t, cfg)
    requires forall z :: z in t ==> Compare(h, z, cfg) <= 0
    ensures Sorted([h] + t, cfg)
  {
    var s := [h] + t;
    forall i, j | 0 <= i < j < |s| ensures Compare(s[i], s[j], cfg) <= 0 {
      if i == 0 {
        assert s[j] == t[j - 1];
      } else {
        assert s[i] == t[i - 1] && s[j] == t[j - 1];
      }
    }
  }

  /** Place x after the elements that strictly precede it and before the rest. */
  function Insert(x: CandidateProfile, ys: seq<CandidateProfile>, cfg: SortConfig): (r: seq<CandidateProfile>)
    ensures multiset(r) == multiset(ys) + multiset{x}
    ensures forall z :: z in r <==> z == x || z in ys
    ensures Sorted(ys, cfg) ==> Sorted(r, cfg)
  {
    if ys == [] then [x]
    else if Compare(ys[0], x, cfg) < 0 then
      var rest := Insert(x, ys[1..], cfg);
      assert ys == [ys[0]] + ys[1..];
      assert Sorted(ys, cfg) ==> Sorted([ys[0]] + rest, cfg) by {
        if Sorted(ys, cfg) {
          SortedTail(ys, cfg);
          InsertBehind(ys, x, rest, cfg);
        }
      }
      [ys[0]] + rest
    else
      assert Sorted(ys, cfg) ==> Sorted([x] + ys, cfg) by {
        if Sorted(ys, cfg) {
          InsertInFront(x, ys, cfg);
        }
      }
      [x] + ys
  }

  /** Sortedness when x goes behind the head of ys. */
  lemma InsertBehind(ys: seq<CandidateProfile>, x: CandidateProfile, rest: seq<CandidateProfile>, cfg: SortConfig)
    requires ys != [] && Sorted(ys, cfg) && Compare(ys[0], x, cfg) < 0
    requires Sorted(rest, cfg) && forall z :: z in rest ==> z == x || z in ys[1..]
    ensures Sorted([ys[0]] + rest, cfg)
  {
    forall z | z in rest ensures Compare(ys[0], z, cfg) <= 0 {
      if z != x {
        var k :| 0 <= k < |ys[1..]| && ys[1..][k] == z;
        assert ys[k + 1] == z;
      }
    }
    SortedCons(ys[0], rest, cfg);
  }

  /** Sortedness when x goes in front of ys. */
  lemma InsertInFront(x: CandidateProfile, ys: seq<CandidateProfile>, cfg: SortConfig)
    requires ys != [] && Sorted(ys, cfg) && !(Compare(ys[0], x, cfg) < 0)
    ensures Sorted([x] + ys, cfg)
  {
    forall z | z in ys ensures Compare(x, z, cfg) <= 0 {
      var k :| 0 <= k < |ys| && ys[k] == z;
      CompareAntisymmetric(x, ys[0], cfg);
      if k > 0 {
        CompareTransitive(x, ys[0], z, cfg);
      }
    }
    SortedCons(x, ys, cfg);
  }

  /** `[...filtered].sort(comparator)`: a stable insertion sort. */
  function SortProfiles(profiles: seq<CandidateProfile>, cfg: SortConfig): (r: seq<CandidateProfile>)
    ensures multiset(r) == multiset(profiles) && |r| == |profiles|
    ensures Sorted(r, cfg)
  {
    if profiles == [] then []
    else
      assert profiles == [profiles[0]] + profiles[1..];
      Insert(profiles[0], SortProfiles(profiles[1..], cfg), cfg)
  }

  lemma TiesCons(a: CandidateProfile, t: seq<CandidateProfile>, x: CandidateProfile, cfg: SortConfig)
    ensures Ties([a] + t, x, cfg) == (if Compare(a, x, cfg) == 0 then [a] else []) + Ties(t, x, cfg)
  {
    assert ([a] + t)[0] == a && ([a] + t)[1..] == t;
  }

  /** One step of Insert on a non-empty list. */
  lemma InsertUnfold(y: CandidateProfile, ys: seq<CandidateProfile>, cfg: SortConfig)
    requires ys != []
    ensures Insert(y, ys, cfg)
            == if Compare(ys[0], y, cfg) < 0 then [ys[0]] + Insert(y, ys[1..], cfg) else [y] + ys
  {
  }

  /** What goes strictly before y does not tie with anything y ties with. */
  lemma TieSeparated(a: CandidateProfile, y: CandidateProfile, x: CandidateProfile, cfg: SortConfig)
    requires Compare(a, y, cfg) < 0 && Compare(y, x, cfg) == 0
    ensures Compare(a, x, cfg) != 0
  {
  }

  /** An element that goes strictly before y can be moved past y's tie
      entry without changing the tie list. */
  lemma TiesSwap(a: CandidateProfile, y: CandidateProfile, x: CandidateProfile,
                 tail: seq<CandidateProfile>, cfg: SortConfig)
    requires Compare(a, y, cfg) < 0
    ensures (if Compare(a, x, cfg) == 0 then [a] else []) + ((if Compare(y, x, cfg) == 0 then [y] else []) + tail)
            == (if Compare(y, x, cfg) == 0 then [y] else []) + ((if Compare(a, x, cfg) == 0 then [a] else []) + tail)
  {
    if Compare(y, x, cfg) == 0 {
      TieSeparated(a, y, x, cfg);
    }
  }

  lemma {:induction false} InsertTies(y: CandidateProfile, ys: seq<CandidateProfile>, x: CandidateProfile, cfg: SortConfig)
    ensures Ties(Insert(y, ys, cfg), x, cfg)
            == (if Compare(y, x, cfg) == 0 then [y] else []) + Ties(ys, x, cfg)
    decreases |ys|
  {
    if ys == [] {
      TiesCons(y, [], x, cfg);
    } else if Compare(ys[0], y, cfg) < 0 {
      var rest := Insert(y, ys[1..], cfg);
      var ty: seq<CandidateProfile> := if Compare(y, x, cfg) == 0 then [y] else [];
      var t0: seq<CandidateProfile> := if Compare(ys[0], x, cfg) == 0 then [ys[0]] else [];
      calc {
        Ties(Insert(y, ys, cfg), x, cfg);
        { InsertUnfold(y, ys, cfg); }
        Ties([ys[0]] + rest, x, cfg);
        { TiesCons(ys[0], rest, x, cfg); }
        t0 + Ties(rest, x, cfg);
        { InsertTies(y, ys[1..], x, cfg); }
        t0 + (ty + Ties(ys[1..], x, cfg));
        { TiesSwap(ys[0], y, x, Ties(ys[1..], x, cfg), cfg); }
        ty + (t0 + Ties(ys[1..], x, cfg));
        ty + Ties(ys, x, cfg);
      }
    } else {
      InsertUnfold(y, ys, cfg);
      TiesCons(y, ys, x, cfg);
    }
  }

  /** Stability: the elements on which the comparator returns 0 keep their
      input order, because `Array.prototype.sort` is stable. */
  lemma {:induction false} SortStable(profiles: seq<CandidateProfile>, x: CandidateProfile, cfg: SortConfig)
    ensures Ties(SortProfiles(profiles, cfg), x, cfg) == Ties(profiles, x, cfg)
    decreases |profiles|
  {
    if profiles != [] {
      SortStable(profiles[1..], x, cfg);
      InsertTies(profiles[0], SortProfiles(profiles[1..], cfg), x, cfg);
    }
  }

  lemma SortedTail(s: seq<CandidateProfile>, cfg: SortConfig)
    requires s != [] && Sorted(s, cfg)
    ensures Sorted(s[1..], cfg)
  {
    forall i, j | 0 <= i < j < |s[1..]| ensures Compare(s[1..][i], s[1..][j], cfg) <= 0 {
      assert s[1..][i] == s[i + 1] && s[1..][j] == s[j + 1];
    }
  }

  /** Every element of a sorted sequence may stay after its first element. */
  lemma SortedFirst(s: seq<CandidateProfile>, z: CandidateProfile, cfg: SortConfig)
    requires s != [] && Sorted(s, cfg) && z in s
    ensures Compare(s[0], z, cfg) <= 0
  {
    var k :| 0 <= k < |s| && s[k] == z;
    if k == 0 { KeyFacts(z, z, cfg.key); }
  }

  /** Two sorted arrangements of the same elements start with tied
      elements; if they also agree on the order of those ties, they start
      with the same element. */
  lemma SameFirst(a: seq<CandidateProfile>, b: seq<CandidateProfile>, cfg: SortConfig)
    requires a != [] && b != [] && multiset(a) == multiset(b)
    requires Sorted(a, cfg) && Sorted(b, cfg)
    requires Ties(a, a[0], cfg) == Ties(b, a[0], cfg)
    ensures a[0] == b[0]
  {
    var a0, b0 := a[0], b[0];
    assert a0 in multiset(b) by { assert a0 in a; }
    assert b0 in multiset(a) by { assert b0 in b; }
    SortedFirst(a, b0, cfg);
    SortedFirst(b, a0, cfg);
    CompareAntisymmetric(a0, b0, cfg);
    assert Compare(b0, a0, cfg) == 0;
    KeyFacts(a0, a0, cfg.key);
    assert Compare(a0, a0, cfg) == 0;
    assert Ties(a, a0, cfg) == [a0] + Ties(a[1..], a0, cfg);
    assert Ties(b, a0, cfg) == [b0] + Ties(b[1..], a0, cfg);
    assert Ties(a, a0, cfg)[0] == a0;
    assert Ties(b, a0, cfg)[0] == b0;
  }

  lemma {:induction false} StableSortUnique(a: seq<CandidateProfile>, b: seq<CandidateProfile>, cfg: SortConfig)
    requires multiset(a) == multiset(b)
    requires Sorted(a, cfg) && Sorted(b, cfg)
    requires forall x :: Ties(a, x, cfg) == Ties(b, x, cfg)
    ensures a == b
    decreases |a|
  {
    assert |a| == |multiset(a)| == |multiset(b)| == |b|;
    if a != [] {
      assert Ties(a, a[0], cfg) == Ties(b, a[0], cfg);
      SameFirst(a, b, cfg);
      var h := a[0];
      var ta, tb := a[1..], b[1..];
      assert a == [h] + ta && b == [h] + tb;
      assert multiset(ta) == multiset(a) - multiset{h};
      assert multiset(tb) == multiset(b) - multiset{h};
      SortedTail(a, cfg);
      SortedTail(b, cfg);
      forall x ensures Ties(ta, x, cfg) == Ties(tb, x, cfg) {
        var p := if Compare(h, x, cfg) == 0 then [h] else [];
        assert Ties(a, x, cfg) == p + Ties(ta, x, cfg);
        assert Ties(b, x, cfg) == p + Ties(tb, x, cfg);
        assert Ties(a, x, cfg) == Ties(b, x, cfg);
        assert (p + Ties(ta, x, cfg))[|p|..] == Ties(ta, x, cfg);
        assert (p + Ties(tb, x, cfg))[|p|..] == Ties(tb, x, cfg);
      }
      StableSortUnique(ta, tb, cfg);
    }
  }

  /** The sorted view is determined by the comparator alone: any permutation
      of the input that is sorted and keeps tied elements in input order (what
      a stable `Array.prototype.sort` returns) is SortProfiles' result. */
  lemma SortProfilesIsStableSort(profiles: seq<CandidateProfile>, r: seq<CandidateProfile>, cfg: SortConfig)
    requires multiset(r) == multiset(profiles) && Sorted(r, cfg)
    requires forall x :: Ties(r, x, cfg) == Ties(profiles, x, cfg)
    ensures r == SortProfiles(profiles, cfg)
  {
    forall x ensures Ties(r, x, cfg) == Ties(SortProfiles(profiles, cfg), x, cfg) {
      SortStable(profiles, x, cfg);
    }
    StableSortUnique(r, SortProfiles(profiles, cfg), cfg);
  }

  /** What Sorted means for each column and direction: scores and dates are
      non-decreasing for Asc and non-increasing for Desc; names likewise in
      string order, a missing name reading as ''. */
  lemma SortedMeaning(s: seq<CandidateProfile>, cfg: SortConfig, i: nat, j: nat)
    requires Sorted(s, cfg) && i < j < |s|
    ensures cfg == SortConfig(ScoreKey, Asc) ==> s[i].score <= s[j].score
    ensures cfg == SortConfig(ScoreKey, Desc) ==> s[i].score >= s[j].score
    ensures cfg == SortConfig(DateKey, Asc) ==> s[i].date <= s[j].date
    ensures cfg == SortConfig(DateKey, Desc) ==> s[i].date >= s[j].date
    ensures cfg == SortConfig(NameKey, Asc) ==> !StrLess(NameOrEmpty(s[j]), NameOrEmpty(s[i]))
    ensures cfg == SortConfig(NameKey, Desc) ==> !StrLess(NameOrEmpty(s[i]), NameOrEmpty(s[j]))
  {
    assert Compare(s[i], s[j], cfg) <= 0;
    KeyFacts(s[i], s[j], cfg.key);
  }

  /** The dashboard table: the matching profiles, sorted. */
  function SortedProfiles(profiles: seq<CandidateProfile>, term: string, cfg: SortConfig): (r: seq<CandidateProfile>)
    ensures forall x :: multiset(r)[x] == if Matches(x, term) then multiset(profiles)[x] else 0
    ensures Sorted(r, cfg)
  {
    SortProfiles(Filter(profiles, term), cfg)
  }

  /** The table shows every matching profile as often as it is archived and
      nothing else, in the chosen order, ties in archive order. */
  lemma SortedProfilesSpec(profiles: seq<CandidateProfile>, term: string, cfg: SortConfig, x: CandidateProfile)
    ensures multiset(SortedProfiles(profiles, term, cfg))[x]
            == if Matches(x, term) then multiset(profiles)[x] else 0
    ensures Sorted(SortedProfiles(profiles, term, cfg), cfg)
    ensures Ties(SortedProfiles(profiles, term, cfg), x, cfg) == Ties(Filter(profiles, term), x, cfg)
  {
    SortStable(Filter(profiles, term), x, cfg);
  }

  /** Clicking a column header: a second click on the column sorted
      descending switches it to ascending; any other click sorts that column
      descending. */
  function HandleSort(prev: SortConfig, key: SortKey): (r: SortConfig)
    ensures r.key == key
    ensures r.direction == Asc <==> prev.key == key && prev.direction == Desc
  {
    var direction := if prev.key == key && prev.direction == Desc then Asc else Desc;
    SortConfig(key, direction)
  }

  /** From the initial score-descending order, the first click on Score sorts
      it ascending and the first click on any other column sorts that column
      descending. */
  lemma DefaultSortClicks(key: SortKey)
    ensures DefaultSortConfig == SortConfig(ScoreKey, Desc)
    ensures HandleSort(DefaultSortConfig, key)
            == if key == ScoreKey then SortConfig(ScoreKey, Asc) else SortConfig(key, Desc)
  {
  }

  /** Clicking the same header again always flips the direction. */
  lemma HandleSortFlips(prev: SortConfig, key: SortKey)
    ensures HandleSort(HandleSort(prev, key), key).key == key
    ensures HandleSort(HandleSort(prev, key), key).direction != HandleSort(prev, key).direction
  {
  }

  // ---------------------------------------------------------------------------
  // Summary figures
  // ---------------------------------------------------------------------------

  /** `profiles.reduce((sum, p) => sum + p.score, 0)`: the left fold adds the
      scores in archive order; the sum is the same when taken from the front. */
  function SumScores(profiles: seq<CandidateProfile>): (r: int)
    ensures profiles != [] ==> r == profiles[0].score + SumScores(profiles[1..])
  {
    if profiles == [] then 0
    else
      var init := profiles[..|profiles| - 1];
      assert init != [] ==> init[1..] == profiles[1..][..|profiles[1..]| - 1];
      SumScores(init) + profiles[|profiles| - 1].score
  }

  /** The sum over two parts is the sum of their sums. */
  lemma {:induction false} SumScoresAppend(a: seq<CandidateProfile>, b: seq<CandidateProfile>)
    ensures SumScores(a + b) == SumScores(a) + SumScores(b)
    decreases |b|
  {
    if b == [] {
      assert a + b == a;
    } else {
      assert (a + b)[..|a + b| - 1] == a + b[..|b| - 1];
      SumScoresAppend(a, b[..|b| - 1]);
    }
  }

  /** `Math.round(num / den)`: the nearest integer, halves rounded up. */
  function RoundDiv(num: int, den: int): (r: int)
    requires den > 0
    ensures 2 * den * r - den <= 2 * num < 2 * den * r + den
  {
    var q := (2 * num + den) / (2 * den);
    assert 2 * den * q <= 2 * num + den < 2 * den * q + 2 * den;
    q
  }

  datatype Stats = Stats(totalInterviews: nat, completedCount: nat, avgScore: int)

  function DashboardStats(profiles: seq<CandidateProfile>): (r: Stats)
    ensures r.totalInterviews == |profiles| && r.completedCount == |profiles|
    ensures profiles == [] ==> r.avgScore == 0
    ensures profiles != [] ==>
              2 * |profiles| * r.avgScore - |profiles| <= 2 * SumScores(profiles)
              < 2 * |profiles| * r.avgScore + |profiles|
  {
    var completed := |profiles|;
    var avg := if completed > 0 then RoundDiv(SumScores(profiles), completed) else 0;
    Stats(|profiles|, completed, avg)
  }

  lemma {:induction false} SumScoresBounds(profiles: seq<CandidateProfile>)
    requires forall p :: p in profiles ==> 0 <= p.score <= 100
    ensures 0 <= SumScores(profiles) <= 100 * |profiles|
    decreases |profiles|
  {
    if profiles != [] {
      var init := profiles[..|profiles| - 1];
      assert forall p :: p in init ==> p in profiles;
      assert profiles[|profiles| - 1] in profiles;
      SumScoresBounds(init);
    }
  }

  /** With scores in 0..100 the average shown is in 0..100 too. */
  lemma AverageInRange(profiles: seq<CandidateProfile>)
    requires forall p :: p in profiles ==> 0 <= p.score <= 100
    ensures 0 <= DashboardStats(profiles).avgScore <= 100
  {
    SumScoresBounds(profiles);
    if profiles != [] {
      RoundedMeanInRange(|profiles|, SumScores(profiles), DashboardStats(profiles).avgScore);
    }
  }

  lemma RoundedMeanInRange(n: int, sum: int, r: int)
    requires n > 0 && 0 <= sum <= 100 * n
    requires 2 * n * r - n <= 2 * sum < 2 * n * r + n
    ensures 0 <= r <= 100
  {
    assert n * (2 * r - 201) <= 0;
    assert n * (2 * r + 1) > 0;
    if 2 * r - 201 > 0 {
      MulPositive(n, 2 * r - 201);
    }
    if 2 * r + 1 <= 0 {
      MulNonPositive(n, 2 * r + 1);
    }
  }

  lemma MulPositive(a: int, b: int)
    requires a > 0 && b > 0
    ensures a * b > 0
  {
  }

  lemma MulNonPositive(a: int, b: int)
    requires a > 0 && b <= 0
    ensures a * b <= 0
  {
  }
}
