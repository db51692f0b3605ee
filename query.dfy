/** The query pipeline behind `handleSearch`, `handleFilter` and `handleSort`:
    the search and status predicates, the views they select, the sort
    comparator and the stable sort that `Array.prototype.sort` performs. */
module Query {
  import opened Wrappers
  import opened Seqs
  import opened Text
  import opened Dates
  import opened Patients

  // ---------------------------------------------------------------------
  // Search and status filter
  // ---------------------------------------------------------------------

  /** `query.toLowerCase().trim()`, the term both handlers search for: the
      lower-cased query with the whitespace around it removed. */
  function SearchTerm(query: string): (t: string)
    ensures IsTrimmed(t)
    ensures |t| <= |query|
    ensures forall k :: 0 <= k < |t| ==> !('A' <= t[k] <= 'Z')
    ensures exists i :: TrimmedAt(ToLower(query), t, i)
  {
    TrimIsInnerSlice(ToLower(query));
    Trim(ToLower(query))
  }

  /** The record matches a non-empty search term: the term occurs in the
      lower-cased first name, last name or email, or in the phone as stored. */
  predicate MatchesQuery(p: Patient, term: string) {
    Includes(ToLower(p.firstName), term) ||
    Includes(ToLower(p.lastName), term) ||
    Includes(p.phone, term) ||
    (p.email != "" && Includes(ToLower(p.email), term))
  }

  /** A record matches exactly when the term occurs at some position of one
      of the searched fields. */
  lemma MatchesQueryIff(p: Patient, term: string)
    ensures MatchesQuery(p, term) <==>
      (exists i :: OccursAt(ToLower(p.firstName), term, i)) ||
      (exists i :: OccursAt(ToLower(p.lastName), term, i)) ||
      (exists i :: OccursAt(p.phone, term, i)) ||
      (p.email != "" && exists i :: OccursAt(ToLower(p.email), term, i))
  {
    IncludesIff(ToLower(p.firstName), term);
    IncludesIff(ToLower(p.lastName), term);
    IncludesIff(p.phone, term);
    IncludesIff(ToLower(p.email), term);
  }

  /** `matchesSearch` of `handleFilter`: an empty term matches every record. */
  predicate MatchesSearch(p: Patient, term: string) {
    term == "" || MatchesQuery(p, term)
  }

  /** `matchesStatus` of `handleFilter`: `'all'` matches every record. */
  predicate MatchesStatus(p: Patient, statusFilter: string) {
    statusFilter == "all" || p.status == statusFilter
  }

  /** The view `handleSearch(query)` assigns: the status filter plays no part. */
  function SearchView(patients: seq<Patient>, query: string): (r: seq<Patient>)
    ensures |r| <= |patients|
    ensures SearchTerm(query) == "" ==> r == patients
    ensures forall i :: 0 <= i < |r| ==> MatchesSearch(r[i], SearchTerm(query))
  {
    var term := SearchTerm(query);
    if term == "" then patients
    else Filter(patients, p => MatchesQuery(p, term))
  }

  /** The view `handleFilter` assigns from the status filter and the search box. */
  function FilterView(patients: seq<Patient>, statusFilter: string, searchInput: string): (r: seq<Patient>)
    ensures |r| <= |patients|
    ensures forall i :: 0 <= i < |r| ==>
      MatchesSearch(r[i], SearchTerm(searchInput)) && MatchesStatus(r[i], statusFilter)
  {
    var term := SearchTerm(searchInput);
    Filter(patients, p => MatchesSearch(p, term) && MatchesStatus(p, statusFilter))
  }

  /** Both views keep records of the full collection in their original order. */
  lemma ViewsAreSubsequences(patients: seq<Patient>, statusFilter: string, query: string)
    ensures IsSubsequence(SearchView(patients, query), patients)
    ensures IsSubsequence(FilterView(patients, statusFilter, query), patients)
  {
    var term := SearchTerm(query);
    FilterIsSubsequence(patients, p => MatchesSearch(p, term) && MatchesStatus(p, statusFilter));
    if term == "" {
      SubsequenceReflexive(patients);
    } else {
      FilterIsSubsequence(patients, p => MatchesQuery(p, term));
    }
  }

  /** `handleFilter` keeps each occurrence of a record exactly when it matches
      both the search term and the status filter. */
  lemma FilterViewSelects(patients: seq<Patient>, statusFilter: string, query: string, x: Patient)
    ensures x in FilterView(patients, statusFilter, query) <==>
      x in patients && MatchesSearch(x, SearchTerm(query)) && MatchesStatus(x, statusFilter)
    ensures multiset(FilterView(patients, statusFilter, query))[x] ==
      if MatchesSearch(x, SearchTerm(query)) && MatchesStatus(x, statusFilter) then multiset(patients)[x] else 0
  {
    var term := SearchTerm(query);
    var f := p => MatchesSearch(p, term) && MatchesStatus(p, statusFilter);
    FilterMembership(patients, f, x);
    FilterMultiset(patients, f);
  }

  /** `handleSearch` keeps each occurrence of a record exactly when it matches the search term. */
  lemma SearchViewSelects(patients: seq<Patient>, query: string, x: Patient)
    ensures x in SearchView(patients, query) <==> x in patients && MatchesSearch(x, SearchTerm(query))
    ensures multiset(SearchView(patients, query))[x] ==
      if MatchesSearch(x, SearchTerm(query)) then multiset(patients)[x] else 0
  {
    var term := SearchTerm(query);
    if term != "" {
      var f := p => MatchesQuery(p, term);
      FilterMembership(patients, f, x);
      FilterMultiset(patients, f);
    }
  }

  /** `handleSearch` is `handleFilter` with the status filter at `'all'`:
      it ignores whatever status is selected. */
  lemma SearchIgnoresStatus(patients: seq<Patient>, query: string)
    ensures SearchView(patients, query) == FilterView(patients, "all", query)
  {
    var term := SearchTerm(query);
    var f := p => MatchesSearch(p, term) && MatchesStatus(p, "all");
    if term == "" {
      FilterAllKept(patients, f);
    } else {
      FilterExtensional(patients, p => MatchesQuery(p, term), f);
    }
  }

  /** A blank search shows the whole collection, and so does a blank search with `'all'`. */
  lemma BlankSearchShowsAll(patients: seq<Patient>, query: string)
    requires SearchTerm(query) == ""
    ensures SearchView(patients, query) == patients
    ensures FilterView(patients, "all", query) == patients
  {
    SearchIgnoresStatus(patients, query);
  }

  /** The case in which the query is typed does not change the view. */
  lemma SearchIsCaseInsensitive(patients: seq<Patient>, statusFilter: string, query: string)
    ensures SearchView(patients, ToUpper(query)) == SearchView(patients, query)
    ensures FilterView(patients, statusFilter, ToUpper(query)) == FilterView(patients, statusFilter, query)
  {
    ToLowerForgetsCase(query);
  }

  // ---------------------------------------------------------------------
  // Sort comparator
  // ---------------------------------------------------------------------

  /** The text compared when sorting by name. */
  function FullName(p: Patient): string {
    p.firstName + " " + p.lastName
  }

  /** Lexicographic comparison by character code, standing for `localeCompare`. */
  function LexCompare(a: string, b: string): (r: int)
    ensures -1 <= r <= 1
    ensures r == 0 <==> a == b
  {
    if a == [] && b == [] then 0
    else if a == [] then -1
    else if b == [] then 1
    else if a[0] < b[0] then -1
    else if a[0] > b[0] then 1
    else
      assert a == [a[0]] + a[1..] && b == [b[0]] + b[1..];
      LexCompare(a[1..], b[1..])
  }

  lemma {:induction false} LexCompareAntisymmetric(a: string, b: string)
    ensures LexCompare(b, a) == -LexCompare(a, b)
  {
    if a != [] && b != [] && a[0] == b[0] {
      LexCompareAntisymmetric(a[1..], b[1..]);
    }
  }

  lemma {:induction false} LexCompareTransitive(a: string, b: string, c: string)
    requires LexCompare(a, b) <= 0 && LexCompare(b, c) <= 0
    ensures LexCompare(a, c) <= 0
  {
    if a != [] && b != [] && c != [] && a[0] == b[0] && b[0] == c[0] {
      LexCompareTransitive(a[1..], b[1..], c[1..]);
    }
  }

  /** The comparator `handleSort` hands to `sort`: negative puts `a` first. */
  function Compare(sortBy: string, a: Patient, b: Patient): int {
    if sortBy == "name" then LexCompare(FullName(a), FullName(b))
    else if sortBy == "date" then b.createdAt - a.createdAt
    else if sortBy == "lastVisit" then
      if a.lastVisit.None? && b.lastVisit.None? then 0
      else if a.lastVisit.None? then 1
      else if b.lastVisit.None? then -1
      else DateCompare(b.lastVisit.value, a.lastVisit.value)
    else 0
  }

  /** Swapping the arguments flips the sign of the comparator. */
  lemma CompareAntisymmetric(sortBy: string, a: Patient, b: Patient)
    ensures Compare(sortBy, a, b) < 0 <==> Compare(sortBy, b, a) > 0
    ensures Compare(sortBy, a, b) == 0 <==> Compare(sortBy, b, a) == 0
  {
    if sortBy == "name" {
      LexCompareAntisymmetric(FullName(a), FullName(b));
    }
  }

  /** "Comes no later than" is transitive for every sort key. */
  lemma CompareTransitive(sortBy: string, a: Patient, b: Patient, c: Patient)
    requires Compare(sortBy, a, b) <= 0 && Compare(sortBy, b, c) <= 0
    ensures Compare(sortBy, a, c) <= 0
  {
    if sortBy == "name" {
      LexCompareTransitive(FullName(a), FullName(b), FullName(c));
    } else if sortBy == "lastVisit" && a.lastVisit.Some? && b.lastVisit.Some? && c.lastVisit.Some? {
      BeforeIsStrictTotalOrder(c.lastVisit.value, b.lastVisit.value, a.lastVisit.value);
    }
  }

  /** Records the comparator cannot tell apart from `p`. */
  function TiedWith(sortBy: string, p: Patient): Patient -> bool {
    y => Compare(sortBy, y, p) == 0
  }

  /** No record is placed after one that the comparator puts after it. */
  ghost predicate Sorted(sortBy: string, s: seq<Patient>) {
    forall i, j :: 0 <= i < j < |s| ==> Compare(sortBy, s[i], s[j]) <= 0
  }

  // ---------------------------------------------------------------------
  // Stable sort
  // ---------------------------------------------------------------------

  /** Insert `x` in front of the first element it does not come after. */
  function Insert(sortBy: string, x: Patient, s: seq<Patient>): (r: seq<Patient>)
    ensures multiset(r) == multiset(s) + multiset{x}
  {
    if s == [] then [x]
    else if Compare(sortBy, x, s[0]) <= 0 then [x] + s
    else
      assert s == [s[0]] + s[1..];
      [s[0]] + Insert(sortBy, x, s[1..])
  }

  /** The stable sort `Array.prototype.sort` performs with the comparator for `sortBy`. */
  function StableSort(sortBy: string, s: seq<Patient>): (r: seq<Patient>)
    ensures multiset(r) == multiset(s)
  {
    if s == [] then []
    else
      assert s == [s[0]] + s[1..];
      Insert(sortBy, s[0], StableSort(sortBy, s[1..]))
  }

  lemma SortedCons(sortBy: string, a: Patient, s: seq<Patient>)
    requires Sorted(sortBy, s)
    requires forall j :: 0 <= j < |s| ==> Compare(sortBy, a, s[j]) <= 0
    ensures Sorted(sortBy, [a] + s)
  {
    var r := [a] + s;
    forall i, j | 0 <= i < j < |r|
      ensures Compare(sortBy, r[i], r[j]) <= 0
    {
      if i > 0 {
        assert r[i] == s[i - 1] && r[j] == s[j - 1];
      } else {
        assert r[j] == s[j - 1];
      }
    }
  }

  lemma {:induction false} InsertKeepsSorted(sortBy: string, x: Patient, s: seq<Patient>)
    requires Sorted(sortBy, s)
    ensures Sorted(sortBy, Insert(sortBy, x, s))
  {
    if s == [] {
    } else if Compare(sortBy, x, s[0]) <= 0 {
      forall j | 0 <= j < |s|
        ensures Compare(sortBy, x, s[j]) <= 0
      {
        if j > 0 {
          CompareTransitive(sortBy, x, s[0], s[j]);
        }
      }
      SortedCons(sortBy, x, s);
    } else {
      var rest := s[1..];
      assert Sorted(sortBy, rest) by {
        forall i, j | 0 <= i < j < |rest|
          ensures Compare(sortBy, rest[i], rest[j]) <= 0
        {
          assert rest[i] == s[i + 1] && rest[j] == s[j + 1];
        }
      }
      InsertKeepsSorted(sortBy, x, rest);
      var r := Insert(sortBy, x, rest);
      forall j | 0 <= j < |r|
        ensures Compare(sortBy, s[0], r[j]) <= 0
      {
        assert r[j] in multiset(r);
        if r[j] == x {
          CompareAntisymmetric(sortBy, x, s[0]);
        } else {
          assert r[j] in rest;
          var m :| 0 <= m < |rest| && rest[m] == r[j];
          assert s[m + 1] == r[j];
        }
      }
      SortedCons(sortBy, s[0], r);
    }
  }

  /** The result of the sort is ordered by the comparator. */
  lemma {:induction false} SortIsSorted(sortBy: string, s: seq<Patient>)
    ensures Sorted(sortBy, StableSort(sortBy, s))
  {
    if s != [] {
      SortIsSorted(sortBy, s[1..]);
      InsertKeepsSorted(sortBy, s[0], StableSort(sortBy, s[1..]));
    }
  }

  /** Inserting `x` adds it in front of the records tied with it and leaves their order alone. */
  lemma {:induction false} InsertKeepsTies(sortBy: string, x: Patient, s: seq<Patient>, p: Patient)
    ensures Filter(Insert(sortBy, x, s), TiedWith(sortBy, p)) ==
      (if Compare(sortBy, x, p) == 0 then [x] else []) + Filter(s, TiedWith(sortBy, p))
  {
    var tied := TiedWith(sortBy, p);
    if s == [] {
    } else if Compare(sortBy, x, s[0]) <= 0 {
      assert ([x] + s)[1..] == s;
    } else {
      InsertKeepsTies(sortBy, x, s[1..], p);
      assert ([s[0]] + Insert(sortBy, x, s[1..]))[1..] == Insert(sortBy, x, s[1..]);
      if Compare(sortBy, x, p) == 0 && Compare(sortBy, s[0], p) == 0 {
        CompareAntisymmetric(sortBy, s[0], p);
        CompareTransitive(sortBy, x, p, s[0]);
        assert false;
      }
    }
  }

  /** The sort is stable: the records tied with any `p` keep their relative order. */
  lemma {:induction false} SortIsStable(sortBy: string, s: seq<Patient>, p: Patient)
    ensures Filter(StableSort(sortBy, s), TiedWith(sortBy, p)) == Filter(s, TiedWith(sortBy, p))
  {
    if s != [] {
      SortIsStable(sortBy, s[1..], p);
      InsertKeepsTies(sortBy, s[0], StableSort(sortBy, s[1..]), p);
    }
  }

  /** Dropping the first record keeps a sequence sorted. */
  lemma SortedTail(sortBy: string, s: seq<Patient>)
    requires Sorted(sortBy, s) && s != []
    ensures Sorted(sortBy, s[1..])
  {
    var rest := s[1..];
    forall i, j | 0 <= i < j < |rest|
      ensures Compare(sortBy, rest[i], rest[j]) <= 0
    {
      assert rest[i] == s[i + 1] && rest[j] == s[j + 1];
    }
  }

  /** The first record of a sorted sequence comes no later than any record in it. */
  lemma SortedHeadFirst(sortBy: string, s: seq<Patient>, x: Patient)
    requires Sorted(sortBy, s) && x in s
    ensures Compare(sortBy, s[0], x) <= 0
  {
    var j :| 0 <= j < |s| && s[j] == x;
    if j == 0 {
      if sortBy == "name" {
        assert LexCompare(FullName(x), FullName(x)) == 0;
      }
    }
  }

  /** Two sorted arrangements of the same records, with the same order inside
      the tie class of the first record, start with the same record. */
  lemma SortedStableHeads(sortBy: string, r: seq<Patient>, t: seq<Patient>)
    requires r != [] && multiset(r) == multiset(t)
    requires Sorted(sortBy, r) && Sorted(sortBy, t)
    requires Filter(r, TiedWith(sortBy, r[0])) == Filter(t, TiedWith(sortBy, r[0]))
    ensures t != [] && r[0] == t[0]
  {
    assert |t| == |multiset(t)| == |multiset(r)| == |r|;
    var a, b := r[0], t[0];
    assert a in multiset(t) && b in multiset(r);
    SortedHeadFirst(sortBy, t, a);
    SortedHeadFirst(sortBy, r, b);
    CompareAntisymmetric(sortBy, a, b);
    SortedHeadFirst(sortBy, r, a);
    var tied := TiedWith(sortBy, a);
    assert tied(a) && tied(b);
    assert Filter(r, tied)[0] == a && Filter(t, tied)[0] == b;
  }

  /** Two sorted arrangements of the same records that keep every tie class
      in the same order are the same arrangement. */
  lemma {:induction false} SortedStableUnique(sortBy: string, r: seq<Patient>, t: seq<Patient>)
    requires multiset(r) == multiset(t)
    requires Sorted(sortBy, r) && Sorted(sortBy, t)
    requires forall p :: Filter(r, TiedWith(sortBy, p)) == Filter(t, TiedWith(sortBy, p))
    ensures r == t
    decreases |r|
  {
    if r == [] {
      assert |t| == |multiset(t)| == 0;
    } else {
      SortedStableHeads(sortBy, r, t);
      forall p
        ensures Filter(r[1..], TiedWith(sortBy, p)) == Filter(t[1..], TiedWith(sortBy, p))
      {
        FilterTailsAgree(r, t, TiedWith(sortBy, p));
      }
      TailsArePermutations(r, t);
      SortedTail(sortBy, r);
      SortedTail(sortBy, t);
      SortedStableUnique(sortBy, r[1..], t[1..]);
      assert r == [r[0]] + r[1..] && t == [t[0]] + t[1..];
    }
  }

  /** Any sort that leaves the view ordered by the comparator, as a permutation
      of it, and stable, produces exactly the order `StableSort` produces. */
  lemma SortIsTheStableSort(sortBy: string, s: seq<Patient>, r: seq<Patient>)
    requires multiset(r) == multiset(s)
    requires Sorted(sortBy, r)
    requires forall p :: Filter(r, TiedWith(sortBy, p)) == Filter(s, TiedWith(sortBy, p))
    ensures r == StableSort(sortBy, s)
  {
    var t := StableSort(sortBy, s);
    SortIsSorted(sortBy, s);
    forall p
      ensures Filter(r, TiedWith(sortBy, p)) == Filter(t, TiedWith(sortBy, p))
    {
      SortIsStable(sortBy, s, p);
    }
    SortedStableUnique(sortBy, r, t);
  }

  /** With an unknown key every pair is tied, so the sort keeps the order it was given. */
  lemma {:induction false} UnknownKeyKeepsOrder(sortBy: string, s: seq<Patient>)
    requires sortBy != "name" && sortBy != "date" && sortBy != "lastVisit"
    ensures StableSort(sortBy, s) == s
  {
    if s != [] {
      UnknownKeyKeepsOrder(sortBy, s[1..]);
      assert s == [s[0]] + s[1..];
    }
  }

  /** Sorting by `'name'` orders the full names lexicographically. */
  lemma SortByNameOrdersNames(s: seq<Patient>)
    ensures var r := StableSort("name", s);
      forall i, j :: 0 <= i < j < |r| ==> LexCompare(FullName(r[i]), FullName(r[j])) <= 0
  {
    SortIsSorted("name", s);
  }

  /** Sorting by `'date'` puts the most recently created records first. */
  lemma SortByDateNewestFirst(s: seq<Patient>)
    ensures var r := StableSort("date", s);
      forall i, j :: 0 <= i < j < |r| ==> r[i].createdAt >= r[j].createdAt
  {
    SortIsSorted("date", s);
    var r := StableSort("date", s);
    forall i, j | 0 <= i < j < |r|
      ensures r[i].createdAt >= r[j].createdAt
    {
      assert Compare("date", r[i], r[j]) <= 0;
    }
  }

  /** Sorting by `'lastVisit'` puts every visited record before every record
      never visited, and the visited ones from the latest visit down. */
  lemma SortByLastVisitLatestFirst(s: seq<Patient>)
    ensures var r := StableSort("lastVisit", s);
      forall i, j :: 0 <= i < j < |r| ==>
        (r[j].lastVisit.Some? ==> r[i].lastVisit.Some?) &&
        (r[i].lastVisit.Some? && r[j].lastVisit.Some? ==> !Before(r[i].lastVisit.value, r[j].lastVisit.value))
  {
    SortIsSorted("lastVisit", s);
    var r := StableSort("lastVisit", s);
    forall i, j | 0 <= i < j < |r|
      ensures (r[j].lastVisit.Some? ==> r[i].lastVisit.Some?) &&
        (r[i].lastVisit.Some? && r[j].lastVisit.Some? ==> !Before(r[i].lastVisit.value, r[j].lastVisit.value))
    {
      assert Compare("lastVisit", r[i], r[j]) <= 0;
    }
  }
}
