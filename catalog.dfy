/** The taunt list's search-and-category filter: the visible list is the
    catalog restricted to the records that match the search text and the
    selected category tab, in catalog order. */
module Catalog {
  import opened Types
  import opened Text

  /** The selected tab: every record, or one category. */
  datatype CategoryFilter = All | Only(category: Category)

  /** The tabs in display order: "All" first, then the categories in
      declaration order. */
  function Tabs(): (tabs: seq<CategoryFilter>)
    ensures |tabs| == 6 && tabs[0] == All
    ensures forall c :: Only(c) in tabs && tabs[1 + Position(c)] == Only(c)
    ensures forall i, j :: 0 <= i < j < |tabs| ==> tabs[i] != tabs[j]
  {
    var cs := Categories();
    var tabs := [All] + seq(|cs|, i requires 0 <= i < |cs| => Only(cs[i]));
    assert forall c :: tabs[1 + Position(c)] == Only(c);
    tabs
  }

  /** Search rule (`matchesSearch`): the id's decimal string contains the
      search text, or the lower-cased record text contains the lower-cased
      search text, each as an occurrence at some index. */
  predicate MatchesSearch(t: Taunt, search: string): (r: bool)
    ensures r <==> (exists i :: OccursAt(IdString(t.id), search, i))
                   || (exists i :: OccursAt(Lower(t.text), Lower(search), i))
  {
    ContainsIff(IdString(t.id), search);
    ContainsIff(Lower(t.text), Lower(search));
    Contains(IdString(t.id), search) || Contains(Lower(t.text), Lower(search))
  }

  /** Category rule (`matchesCategory`): the "All" tab, or the record's
      category value equals the selected one. The comparison is on the
      enumeration's string values, and it is the comparison of members. */
  predicate MatchesCategory(t: Taunt, active: CategoryFilter): (r: bool)
    ensures r <==> active.All? || t.category == active.category
  {
    match active
    case All => true
    case Only(c) =>
      CategoryValueInjective(t.category, c);
      CategoryValue(t.category) == CategoryValue(c)
  }

  /** A record stays in the list when it passes both rules. */
  predicate Keep(t: Taunt, search: string, active: CategoryFilter): (r: bool)
    ensures r <==> MatchesSearch(t, search) && (active.All? || t.category == active.category)
  {
    MatchesSearch(t, search) && MatchesCategory(t, active)
  }

  /** The visible list: the catalog's records that satisfy both rules. */
  function Filter(catalog: seq<Taunt>, search: string, active: CategoryFilter): (r: seq<Taunt>)
    ensures |r| <= |catalog|
    ensures forall t :: t in r ==> t in catalog && Keep(t, search, active)
    decreases |catalog|
  {
    if catalog == [] then []
    else
      var rest := Filter(catalog[1..], search, active);
      if Keep(catalog[0], search, active) then [catalog[0]] + rest else rest
  }

  /** `a` is `b` with some elements removed, the rest in the same order. */
  predicate IsSubsequence(a: seq<Taunt>, b: seq<Taunt>)
    decreases |b|
  {
    if a == [] then true
    else if b == [] then false
    else (a[0] == b[0] && IsSubsequence(a[1..], b[1..])) || IsSubsequence(a, b[1..])
  }

  lemma {:induction false} SubsequenceShorter(a: seq<Taunt>, b: seq<Taunt>)
    requires IsSubsequence(a, b)
    ensures |a| <= |b|
    decreases |b|
  {
    if a != [] {
      if a[0] == b[0] && IsSubsequence(a[1..], b[1..]) {
        SubsequenceShorter(a[1..], b[1..]);
      } else {
        SubsequenceShorter(a, b[1..]);
      }
    }
  }

  /** A record is shown exactly when it is in the catalog and passes both rules. */
  lemma {:induction false} FilterMembership(catalog: seq<Taunt>, search: string, active: CategoryFilter, t: Taunt)
    ensures t in Filter(catalog, search, active) <==> t in catalog && Keep(t, search, active)
    decreases |catalog|
  {
    if catalog != [] {
      FilterMembership(catalog[1..], search, active, t);
      assert t in catalog <==> t == catalog[0] || t in catalog[1..] by {
        assert catalog == [catalog[0]] + catalog[1..];
      }
    }
  }

  /** The filter keeps catalog order: records are never reordered or invented. */
  lemma {:induction false} FilterIsSubsequence(catalog: seq<Taunt>, search: string, active: CategoryFilter)
    ensures IsSubsequence(Filter(catalog, search, active), catalog)
    decreases |catalog|
  {
    if catalog != [] {
      FilterIsSubsequence(catalog[1..], search, active);
      var r := Filter(catalog, search, active);
      if Keep(catalog[0], search, active) {
        assert r[0] == catalog[0] && r[1..] == Filter(catalog[1..], search, active);
      }
    }
  }

  /** No record is shown more often than the catalog holds it. */
  lemma {:induction false} FilterNoDuplicates(catalog: seq<Taunt>, search: string, active: CategoryFilter)
    ensures multiset(Filter(catalog, search, active)) <= multiset(catalog)
    decreases |catalog|
  {
    if catalog != [] {
      FilterNoDuplicates(catalog[1..], search, active);
      assert catalog == [catalog[0]] + catalog[1..];
    }
  }

  /** Regrouping a concatenation, stated apart from FilterConcat so that the
      solver proves it without that lemma's context. */
  lemma ConcatAssociative(a: seq<Taunt>, b: seq<Taunt>, c: seq<Taunt>)
    ensures a + (b + c) == (a + b) + c
  {
  }

  /** Filtering a list with a given first record. */
  lemma FilterCons(x: Taunt, rest: seq<Taunt>, search: string, active: CategoryFilter)
    ensures Filter([x] + rest, search, active)
         == (if Keep(x, search, active) then [x] else []) + Filter(rest, search, active)
  {
    var c := [x] + rest;
    assert c[0] == x && c[1..] == rest;
  }

  /** Filtering a concatenation filters each part. */
  lemma {:induction false} FilterConcat(a: seq<Taunt>, b: seq<Taunt>, search: string, active: CategoryFilter)
    ensures Filter(a + b, search, active) == Filter(a, search, active) + Filter(b, search, active)
    decreases |a|
  {
    if a == [] {
      assert a + b == b;
    } else {
      var x, rest := a[0], a[1..];
      assert a == [x] + rest;
      assert a + b == [x] + (rest + b);
      FilterConcat(rest, b, search, active);
      FilterCons(x, rest + b, search, active);
      FilterCons(x, rest, search, active);
      var fr, fb := Filter(rest, search, active), Filter(b, search, active);
      ConcatAssociative(if Keep(x, search, active) then [x] else [], fr, fb);
    }
  }

  /** A list whose every record passes both rules is shown unchanged. */
  lemma {:induction false} FilterKeepsAll(catalog: seq<Taunt>, search: string, active: CategoryFilter)
    requires forall t :: t in catalog ==> Keep(t, search, active)
    ensures Filter(catalog, search, active) == catalog
    decreases |catalog|
  {
    if catalog != [] {
      assert catalog[0] in catalog;
      FilterKeepsAll(catalog[1..], search, active);
    }
  }

  /** Every string includes the empty string, so an empty search on the
      "All" tab shows the whole catalog in order. */
  lemma FilterEmptySearchAll(catalog: seq<Taunt>)
    ensures Filter(catalog, "", All) == catalog
  {
    forall t | t in catalog ensures Keep(t, "", All) {
      ContainsEmpty(IdString(t.id));
    }
    FilterKeepsAll(catalog, "", All);
  }

  /** Recomputing the visible list from itself changes nothing. */
  lemma FilterIdempotent(catalog: seq<Taunt>, search: string, active: CategoryFilter)
    ensures Filter(Filter(catalog, search, active), search, active) == Filter(catalog, search, active)
  {
    FilterKeepsAll(Filter(catalog, search, active), search, active);
  }

  /** A category tab shows the "All" result restricted to that category. */
  lemma {:induction false} FilterOnlyRefinesAll(catalog: seq<Taunt>, search: string, c: Category)
    ensures Filter(catalog, search, Only(c)) == Filter(Filter(catalog, search, All), search, Only(c))
    decreases |catalog|
  {
    if catalog != [] {
      FilterOnlyRefinesAll(catalog[1..], search, c);
    }
  }

  /** A category tab shows only records of that category, a subsequence of
      what "All" shows for the same search, so never more. */
  lemma FilterCategoryNarrows(catalog: seq<Taunt>, search: string, c: Category)
    ensures forall t :: t in Filter(catalog, search, Only(c)) ==> t.category == c
    ensures IsSubsequence(Filter(catalog, search, Only(c)), Filter(catalog, search, All))
    ensures |Filter(catalog, search, Only(c))| <= |Filter(catalog, search, All)|
  {
    FilterOnlyRefinesAll(catalog, search, c);
    FilterIsSubsequence(Filter(catalog, search, All), search, Only(c));
    SubsequenceShorter(Filter(catalog, search, Only(c)), Filter(catalog, search, All));
  }

  /** Searching for any piece of a record's text, in any letter case, or for
      any piece of its id string finds that record on the "All" tab. */
  lemma SearchFindsRecord(catalog: seq<Taunt>, t: Taunt, piece: string, i: int)
    requires t in catalog
    requires (0 <= i && i + |piece| <= |t.text| && Lower(piece) == Lower(t.text[i..i + |piece|]))
             || OccursAt(IdString(t.id), piece, i)
    ensures t in Filter(catalog, piece, All)
  {
    if 0 <= i && i + |piece| <= |t.text| && Lower(piece) == Lower(t.text[i..i + |piece|]) {
      LowerSlice(t.text, i, i + |piece|);
      assert OccursAt(Lower(t.text), Lower(piece), i);
      ContainsIff(Lower(t.text), Lower(piece));
    } else {
      ContainsIff(IdString(t.id), piece);
    }
    FilterMembership(catalog, piece, All, t);
  }

  /** A worked case: taunt 7, "Good game", is found by "good" (through the
      lower-cased text) and by "7" (through the id string) but not by "xyz". */
  lemma GoodGameFoundByText()
    ensures var t := Taunt(7, "Good game", Essential, None);
      Filter([t], "good", All) == [t] && Filter([t], "GOOD", All) == [t]
  {
    assert Lower("GOOD") == "good";
    var t := Taunt(7, "Good game", Essential, None);
    assert Lower("good") == "good";
    assert Lower(t.text)[..4] == "good";
  }

  lemma GoodGameFoundById()
    ensures var t := Taunt(7, "Good game", Essential, None);
      Filter([t], "7", All) == [t]
  {
    assert IdString(7) == "7";
  }

  lemma GoodGameNotFoundByOther()
    ensures var t := Taunt(7, "Good game", Essential, None);
      Filter([t], "xyz", All) == []
  {
    var t := Taunt(7, "Good game", Essential, None);
    var x := Lower("xyz");
    assert x[0] == 'x';
    var lt := Lower(t.text);
    assert forall k :: 0 <= k < |lt| ==> lt[k] != 'x';
    forall i ensures !OccursAt(lt, x, i) {
      if 0 <= i && i + |x| <= |lt| {
        assert lt[i..i + |x|][0] == lt[i];
      }
    }
    ContainsIff(lt, x);
    assert IdString(7) == "7";
    ContainsIff("7", "xyz");
  }
}
