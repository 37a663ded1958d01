/**
 * The favourites view: each position of the favourites list is fetched on its own, and the records
 * that pass the status and species filters are rendered. An empty filter value
 * is a wildcard; a non-empty one must equal the record's field exactly.
 */
module Filter {

  /** A character record as the API returns it. */
  datatype Character = Character(id: int, name: string, image: string, status: string, species: string)

  /** A record passes when each filter value is either empty (any value is accepted) or
      equal to the record's field. */
  predicate Matches(statusFilter: string, speciesFilter: string, c: Character)
    ensures statusFilter == "" && speciesFilter == "" ==> Matches(statusFilter, speciesFilter, c)
    ensures c.status == statusFilter && c.species == speciesFilter ==> Matches(statusFilter, speciesFilter, c)
  {
    (statusFilter == "" || c.status == statusFilter) &&
    (speciesFilter == "" || c.species == speciesFilter)
  }

  /** The records of `recs` that pass both filters, in their original order. */
  function Filtered(statusFilter: string, speciesFilter: string, recs: seq<Character>): (r: seq<Character>)
    ensures |r| <= |recs|
    ensures forall c :: c in r <==> c in recs && Matches(statusFilter, speciesFilter, c)
  {
    if |recs| == 0 then []
    else
      var rest := Filtered(statusFilter, speciesFilter, recs[1..]);
      assert recs == [recs[0]] + recs[1..];
      if Matches(statusFilter, speciesFilter, recs[0]) then [recs[0]] + rest else rest
  }

  /** Each record that passes is kept exactly as often as it occurs; the others never. */
  lemma {:induction false} FilterCounts(statusFilter: string, speciesFilter: string, recs: seq<Character>, c: Character)
    ensures multiset(Filtered(statusFilter, speciesFilter, recs))[c] ==
      if Matches(statusFilter, speciesFilter, c) then multiset(recs)[c] else 0
  {
    if |recs| > 0 {
      FilterCounts(statusFilter, speciesFilter, recs[1..], c);
      assert recs == [recs[0]] + recs[1..];
    }
  }

  /** Filtering only drops records: a corollary of FilterCounts, record by record. */
  lemma FilterSubMultiset(statusFilter: string, speciesFilter: string, recs: seq<Character>)
    ensures multiset(Filtered(statusFilter, speciesFilter, recs)) <= multiset(recs)
  {
    forall c ensures multiset(Filtered(statusFilter, speciesFilter, recs))[c] <= multiset(recs)[c] {
      FilterCounts(statusFilter, speciesFilter, recs, c);
    }
  }

  /** With both filters empty every record is kept, in order. */
  lemma {:induction false} FilterWildcard(recs: seq<Character>)
    ensures Filtered("", "", recs) == recs
  {
    if |recs| > 0 {
      FilterWildcard(recs[1..]);
      assert recs == [recs[0]] + recs[1..];
    }
  }

  /** Filtering again with the same values changes nothing. */
  lemma {:induction false} FilterIdempotent(statusFilter: string, speciesFilter: string, recs: seq<Character>)
    ensures Filtered(statusFilter, speciesFilter, Filtered(statusFilter, speciesFilter, recs))
         == Filtered(statusFilter, speciesFilter, recs)
  {
    if |recs| > 0 {
      FilterIdempotent(statusFilter, speciesFilter, recs[1..]);
      var rest := Filtered(statusFilter, speciesFilter, recs[1..]);
      if Matches(statusFilter, speciesFilter, recs[0]) {
        assert ([recs[0]] + rest)[1..] == rest;
      }
    }
  }

  /** The outcome of one per-favourite request: it rejects, or it resolves to a record. Each
      position of the favourites list has its own request, so an id listed twice has two. */
  datatype Reply = Rejected | Arrived(record: Character)

  /** The records of the requests that resolved, in the order of the replies. */
  function Resolved(replies: seq<Reply>): (r: seq<Character>)
    ensures |r| <= |replies|
    ensures (forall i :: 0 <= i < |replies| ==> replies[i].Arrived?) ==> |r| == |replies|
  {
    if |replies| == 0 then []
    else
      var rest := Resolved(replies[1..]);
      if replies[0].Arrived? then [replies[0].record] + rest else rest
  }

  /** Each request that resolved contributes exactly one record, and a rejected one none. */
  lemma {:induction false} ResolvedCounts(replies: seq<Reply>, c: Character)
    ensures multiset(Resolved(replies))[c] == multiset(replies)[Arrived(c)]
  {
    if |replies| > 0 {
      ResolvedCounts(replies[1..], c);
      assert replies == [replies[0]] + replies[1..];
    }
  }

  /** A record is resolved iff some request resolved to it. */
  lemma {:induction false} ResolvedMembers(replies: seq<Reply>, c: Character)
    ensures c in Resolved(replies) <==> exists i :: 0 <= i < |replies| && replies[i] == Arrived(c)
  {
    if |replies| > 0 {
      ResolvedMembers(replies[1..], c);
      assert forall i :: 0 < i < |replies| ==> replies[1..][i - 1] == replies[i];
    }
  }

  /** When every request resolved, the records follow the favourites list. */
  lemma {:induction false} ResolvedInOrder(replies: seq<Reply>)
    requires forall i :: 0 <= i < |replies| ==> replies[i].Arrived?
    ensures |Resolved(replies)| == |replies|
    ensures forall i :: 0 <= i < |replies| ==> Resolved(replies)[i] == replies[i].record
  {
    if |replies| > 0 {
      ResolvedInOrder(replies[1..]);
    }
  }

  /** The cards the favourites view renders, given the reply to the request of each position of
      the favourites list. Cards appear in network-arrival order, so only the multiset of rendered
      records is determined. */
  function Rendered(statusFilter: string, speciesFilter: string, favorites: seq<int>,
                    replies: seq<Reply>): (r: multiset<Character>)
    requires |replies| == |favorites|
    ensures |r| <= |favorites|
  {
    multiset(Filtered(statusFilter, speciesFilter, Resolved(replies)))
  }

  /** One card is rendered per resolved request of a passing record, so an id listed twice
      shows twice when both of its requests resolve; a record that fails a filter is never rendered. */
  lemma RenderedCounts(statusFilter: string, speciesFilter: string, favorites: seq<int>,
                       replies: seq<Reply>, c: Character)
    requires |replies| == |favorites|
    ensures Rendered(statusFilter, speciesFilter, favorites, replies)[c] ==
      if Matches(statusFilter, speciesFilter, c) then multiset(replies)[Arrived(c)] else 0
  {
    FilterCounts(statusFilter, speciesFilter, Resolved(replies), c);
    ResolvedCounts(replies, c);
  }

  /** A record is rendered iff the request of some favourite position resolved to it and it
      passes both filters; nothing that fails a filter is rendered. */
  lemma RenderedMembers(statusFilter: string, speciesFilter: string, favorites: seq<int>,
                        replies: seq<Reply>, c: Character)
    requires |replies| == |favorites|
    ensures c in Rendered(statusFilter, speciesFilter, favorites, replies) <==>
      Matches(statusFilter, speciesFilter, c) &&
      exists i :: 0 <= i < |favorites| && replies[i] == Arrived(c)
  {
    var f := Filtered(statusFilter, speciesFilter, Resolved(replies));
    assert c in multiset(f) <==> c in f;
    ResolvedMembers(replies, c);
  }

  /** Favourites [1, 2, 3] with the status filter "Dead" render exactly the records of 2 and 3,
      and not the record of 1. */
  lemma RenderedExample(c1: Character, c2: Character, c3: Character)
    requires c1.status == "Alive" && c2.status == "Dead" && c3.status == "Dead"
    ensures Rendered("Dead", "", [1, 2, 3], [Arrived(c1), Arrived(c2), Arrived(c3)]) == multiset{c2, c3}
  {
    var replies := [Arrived(c1), Arrived(c2), Arrived(c3)];
    ResolvedInOrder(replies);
    assert Resolved(replies) == [c1, c2, c3];
    DeadExample(c1, c2, c3);
  }

  lemma DeadExample(c1: Character, c2: Character, c3: Character)
    requires c1.status == "Alive" && c2.status == "Dead" && c3.status == "Dead"
    ensures Filtered("Dead", "", [c1, c2, c3]) == [c2, c3]
  {
    var s := [c1, c2, c3];
    assert s[1..] == [c2, c3] && s[1..][1..] == [c3] && s[1..][1..][1..] == [];
    assert Filtered("Dead", "", [c3]) == [c3];
  }

  /** An id listed twice has two requests: it shows twice when both resolve, and once when one
      of them rejects. */
  lemma RenderedDuplicate(c: Character)
    ensures Rendered("", "", [2, 2], [Arrived(c), Arrived(c)]) == multiset{c, c}
    ensures Rendered("", "", [2, 2], [Arrived(c), Rejected]) == multiset{c}
  {
    var both := [Arrived(c), Arrived(c)];
    var one := [Arrived(c), Rejected];
    assert both[1..] == [Arrived(c)] && [Arrived(c)][1..] == [];
    assert Resolved([Arrived(c)]) == [c];
    assert Resolved(both) == [c, c];
    assert one[1..] == [Rejected] && [Rejected][1..] == [];
    assert Resolved([Rejected]) == [];
    assert Resolved(one) == [c];
    FilterWildcard([c, c]);
    FilterWildcard([c]);
  }
}
