/** The page widget's search: a two-group filter over the working copy and the
    rule that keeps the selection pointer on a visible row. */
module Search {
  import opened Wrappers
  import opened Strings
  import opened Types

  /** Some tag of the record contains the lowercased query. */
  predicate TagHit(item: CopyPasta, query: string) {
    exists i :: 0 <= i < |item.tags| && Includes(Lower(item.tags[i]), query)
  }

  /** The lowercased content contains the lowercased query. */
  predicate ContentHit(item: CopyPasta, query: string) {
    Includes(Lower(item.content), query)
  }

  /** The records with a tag hit, in their order. */
  function TagMatches(items: seq<CopyPasta>, query: string): (r: seq<CopyPasta>)
    ensures |r| <= |items|
    ensures forall x :: x in r <==> x in items && TagHit(x, query)
  {
    if items == [] then []
    else
      var last := items[|items| - 1];
      TagMatches(items[..|items| - 1], query) + (if TagHit(last, query) then [last] else [])
  }

  /** The records without a tag hit whose content matches, in their order. */
  function ContentMatches(items: seq<CopyPasta>, query: string): (r: seq<CopyPasta>)
    ensures |r| <= |items|
    ensures forall x :: x in r <==> x in items && !TagHit(x, query) && ContentHit(x, query)
  {
    if items == [] then []
    else
      var last := items[|items| - 1];
      ContentMatches(items[..|items| - 1], query)
        + (if !TagHit(last, query) && ContentHit(last, query) then [last] else [])
  }

  /** The tag group is stable: matching a concatenation matches each part. */
  lemma {:induction false} TagMatchesAppend(a: seq<CopyPasta>, b: seq<CopyPasta>, query: string)
    ensures TagMatches(a + b, query) == TagMatches(a, query) + TagMatches(b, query)
    decreases |b|
  {
    if b == [] {
      assert a + b == a;
    } else {
      var init := b[..|b| - 1];
      assert (a + b)[..|a + b| - 1] == a + init;
      assert (a + b)[|a + b| - 1] == b[|b| - 1];
      TagMatchesAppend(a, init, query);
    }
  }

  /** One record is in the tag group exactly when it has a tag hit. */
  lemma TagMatchesOne(x: CopyPasta, query: string)
    ensures TagMatches([x], query) == if TagHit(x, query) then [x] else []
  {
  }

  /** The content group is stable in the same way. */
  lemma {:induction false} ContentMatchesAppend(a: seq<CopyPasta>, b: seq<CopyPasta>, query: string)
    ensures ContentMatches(a + b, query) == ContentMatches(a, query) + ContentMatches(b, query)
    decreases |b|
  {
    if b == [] {
      assert a + b == a;
    } else {
      var init := b[..|b| - 1];
      assert (a + b)[..|a + b| - 1] == a + init;
      assert (a + b)[|a + b| - 1] == b[|b| - 1];
      ContentMatchesAppend(a, init, query);
    }
  }

  /** One record is in the content group exactly when its content matches and no tag does. */
  lemma ContentMatchesOne(x: CopyPasta, query: string)
    ensures ContentMatches([x], query) == if !TagHit(x, query) && ContentHit(x, query) then [x] else []
  {
  }

  /** The records matching nothing. */
  function Misses(items: seq<CopyPasta>, query: string): (r: seq<CopyPasta>)
    ensures forall x :: x in r <==> x in items && !TagHit(x, query) && !ContentHit(x, query)
  {
    if items == [] then []
    else
      var last := items[|items| - 1];
      Misses(items[..|items| - 1], query)
        + (if !TagHit(last, query) && !ContentHit(last, query) then [last] else [])
  }

  /** What `computeVisibleItems` returns for a query. */
  function Visible(items: seq<CopyPasta>, searchQuery: string): (r: seq<CopyPasta>)
    ensures forall x :: x in r ==> x in items
  {
    var query := Lower(Trim(searchQuery));
    if query == [] then items else TagMatches(items, query) + ContentMatches(items, query)
  }

  /** A blank query shows every record in order. */
  lemma VisibleBlank(items: seq<CopyPasta>, searchQuery: string)
    requires AllWhite(searchQuery)
    ensures Visible(items, searchQuery) == items
  {
    TrimEmptyIffBlank(searchQuery);
  }

  /** A record is shown exactly when the query is blank, a tag contains it or the content does. */
  lemma VisibleMembers(items: seq<CopyPasta>, searchQuery: string, x: CopyPasta)
    ensures var query := Lower(Trim(searchQuery));
            x in Visible(items, searchQuery)
            <==> x in items && (query == [] || TagHit(x, query) || ContentHit(x, query))
  {
  }

  /** Tag hits come before content hits. */
  lemma VisibleGroups(items: seq<CopyPasta>, searchQuery: string)
    requires Lower(Trim(searchQuery)) != []
    ensures var query := Lower(Trim(searchQuery));
            var v := Visible(items, searchQuery);
            var k := |TagMatches(items, query)|;
            (forall i :: 0 <= i < k ==> TagHit(v[i], query))
            && (forall i :: k <= i < |v| ==> !TagHit(v[i], query) && ContentHit(v[i], query))
  {
    var query := Lower(Trim(searchQuery));
    GroupsConcat(TagMatches(items, query), ContentMatches(items, query), query);
  }

  /** Indexwise form of two groups put one after the other. */
  lemma GroupsConcat(t: seq<CopyPasta>, c: seq<CopyPasta>, query: string)
    requires forall x :: x in t ==> TagHit(x, query)
    requires forall x :: x in c ==> !TagHit(x, query) && ContentHit(x, query)
    ensures forall i :: 0 <= i < |t| ==> TagHit((t + c)[i], query)
    ensures forall i :: |t| <= i < |t + c| ==> !TagHit((t + c)[i], query) && ContentHit((t + c)[i], query)
  {
    forall i | 0 <= i < |t|
      ensures TagHit((t + c)[i], query)
    {
      assert (t + c)[i] == t[i] && t[i] in t;
    }
    forall i | |t| <= i < |t + c|
      ensures !TagHit((t + c)[i], query) && ContentHit((t + c)[i], query)
    {
      assert (t + c)[i] == c[i - |t|] && c[i - |t|] in c;
    }
  }

  /** The three groups partition the records: each record occurs in them
      together exactly as often as it occurs among the records. */
  lemma {:induction false} GroupsPartition(items: seq<CopyPasta>, query: string)
    ensures forall x :: multiset(TagMatches(items, query))[x] + multiset(ContentMatches(items, query))[x]
                        + multiset(Misses(items, query))[x] == multiset(items)[x]
  {
    if items != [] {
      var init := items[..|items| - 1];
      var last := items[|items| - 1];
      GroupsPartition(init, query);
      assert items == init + [last];
      forall x
        ensures multiset(TagMatches(items, query))[x] + multiset(ContentMatches(items, query))[x]
                + multiset(Misses(items, query))[x] == multiset(items)[x]
      {
        GroupsStep(init, last, query, x);
      }
    }
  }

  lemma GroupsStep(init: seq<CopyPasta>, last: CopyPasta, query: string, x: CopyPasta)
    requires multiset(TagMatches(init, query))[x] + multiset(ContentMatches(init, query))[x]
             + multiset(Misses(init, query))[x] == multiset(init)[x]
    ensures var items := init + [last];
            multiset(TagMatches(items, query))[x] + multiset(ContentMatches(items, query))[x]
            + multiset(Misses(items, query))[x] == multiset(items)[x]
  {
    var items := init + [last];
    assert items[..|items| - 1] == init && items[|items| - 1] == last;
    var t := if TagHit(last, query) then [last] else [];
    var c := if !TagHit(last, query) && ContentHit(last, query) then [last] else [];
    var m := if !TagHit(last, query) && !ContentHit(last, query) then [last] else [];
    assert TagMatches(items, query) == TagMatches(init, query) + t;
    assert ContentMatches(items, query) == ContentMatches(init, query) + c;
    assert Misses(items, query) == Misses(init, query) + m;
    assert multiset(t)[x] + multiset(c)[x] + multiset(m)[x] == multiset([last])[x];
    assert multiset(items) == multiset(init) + multiset([last]);
  }

  /** Each record is shown at most as often as it occurs among the records. */
  lemma VisibleNoDuplicates(items: seq<CopyPasta>, searchQuery: string)
    ensures multiset(Visible(items, searchQuery)) <= multiset(items)
  {
    var query := Lower(Trim(searchQuery));
    if query != [] {
      GroupsPartition(items, query);
    }
  }

  /** `recomputeVisible`: a present, non-zero preferred id wins; otherwise the
      pointer is clamped to the last row, or 0 when nothing is visible. */
  function Reconcile(visible: seq<CopyPasta>, pointer: int, preferredId: Option<int>): (r: int)
    ensures preferredId.Some? && preferredId.value != 0 && FindIndexById(visible, preferredId.value) != -1
            ==> 0 <= r < |visible| && visible[r].id == preferredId.value
                && forall i :: 0 <= i < r ==> visible[i].id != preferredId.value
    ensures pointer >= 0 && visible != [] ==> 0 <= r < |visible|
    ensures visible == [] ==> r == 0
    ensures ((preferredId.None? || preferredId.value == 0 || FindIndexById(visible, preferredId.value) == -1)
             && 0 <= pointer < |visible|) ==> r == pointer
    ensures ((preferredId.None? || preferredId.value == 0 || FindIndexById(visible, preferredId.value) == -1)
             && visible != [] && pointer >= |visible|) ==> r == |visible| - 1
  {
    var snapped := if preferredId.Some? && preferredId.value != 0
                   then FindIndexById(visible, preferredId.value) else -1;
    if snapped != -1 then snapped
    else if visible != [] then (if pointer < |visible| - 1 then pointer else |visible| - 1)
    else 0
  }

  /** The search state of one widget instance. */
  class SearchFilter {
    var searchQuery: string
    var pointer: int
    var items: seq<CopyPasta>

    constructor(items: seq<CopyPasta>)
      ensures searchQuery == [] && pointer == 0 && this.items == items
    {
      searchQuery := [];
      pointer := 0;
      this.items := items;
    }

    /** A new query puts the selection back on the first row. */
    method SetSearchQuery(query: string)
      modifies this
      ensures searchQuery == query && pointer == 0 && items == old(items)
    {
      searchQuery := query;
      pointer := 0;
    }

    method SetItems(items: seq<CopyPasta>)
      modifies this
      ensures this.items == items && searchQuery == old(searchQuery) && pointer == old(pointer)
    {
      this.items := items;
    }

    method SetPointer(pointer: int)
      modifies this
      ensures this.pointer == pointer && searchQuery == old(searchQuery) && items == old(items)
    {
      this.pointer := pointer;
    }

    /** Fills the two groups in one pass; the state is left alone. */
    method ComputeVisibleItems() returns (r: seq<CopyPasta>)
      ensures r == Visible(items, searchQuery)
    {
      var query := Lower(Trim(searchQuery));
      if query == [] {
        return items;
      }
      var tagMatches: seq<CopyPasta> := [];
      var descriptionMatches: seq<CopyPasta> := [];
      var i := 0;
      while i < |items|
        invariant 0 <= i <= |items|
        invariant tagMatches == TagMatches(items[..i], query)
        invariant descriptionMatches == ContentMatches(items[..i], query)
      {
        var entry := items[i];
        var tagHit := TagHit(entry, query);
        var descriptionHit := ContentHit(entry, query);
        assert items[..i + 1][..i] == items[..i];
        if tagHit {
          tagMatches := tagMatches + [entry];
        } else if descriptionHit {
          descriptionMatches := descriptionMatches + [entry];
        }
        i := i + 1;
      }
      assert items[..i] == items;
      return tagMatches + descriptionMatches;
    }

    method RecomputeVisible(visible: seq<CopyPasta>, preferredId: Option<int>) returns (p: int)
      modifies this
      ensures pointer == Reconcile(visible, old(pointer), preferredId) && p == pointer
      ensures searchQuery == old(searchQuery) && items == old(items)
    {
      if preferredId.Some? && preferredId.value != 0 {
        var nextIndex := FindIndexById(visible, preferredId.value);
        if nextIndex != -1 {
          pointer := nextIndex;
          return pointer;
        }
      }
      pointer := if |visible| > 0 then (if pointer < |visible| - 1 then pointer else |visible| - 1) else 0;
      return pointer;
    }
  }
}
