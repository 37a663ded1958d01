/**
 * The favourites list: an ordered sequence of character ids that a toggle
 * updates in place (remove the first occurrence when present, append
 * otherwise), and membership as read by `includes`.
 */
module Favorites {

  /** No id occurs twice in the list. */
  predicate NoDup(s: seq<int>) {
    forall i, j :: 0 <= i < j < |s| ==> s[i] != s[j]
  }

  /** `indexOf` with strict equality: the position of the first occurrence of `x`, or -1. */
  function IndexOf(s: seq<int>, x: int): (r: int)
    ensures -1 <= r < |s|
    ensures r == -1 <==> x !in s
    ensures 0 <= r ==> s[r] == x && x !in s[..r]
  {
    if |s| == 0 then -1
    else if s[0] == x then 0
    else
      var k := IndexOf(s[1..], x);
      if k == -1 then -1
      else
        assert s[..k + 1] == [s[0]] + s[1..][..k];
        k + 1
  }

  /** The list after toggling `id`: the first occurrence removed when present (`splice(index, 1)`),
      `id` appended otherwise (`push`). */
  function Toggled(s: seq<int>, id: int): (r: seq<int>)
    ensures id in s ==> |r| == |s| - 1
    ensures id !in s ==> |r| == |s| + 1 && r[|s|] == id
  {
    var index := IndexOf(s, id);
    if index > -1 then s[..index] + s[index + 1..] else s + [id]
  }

  /** Toggling an absent id appends it at the end; every earlier element stays where it was. */
  lemma ToggleAbsent(s: seq<int>, id: int)
    requires id !in s
    ensures |Toggled(s, id)| == |s| + 1
    ensures Toggled(s, id)[|s|] == id
    ensures Toggled(s, id)[..|s|] == s
  {
    assert (s + [id])[..|s|] == s;
  }

  /** Toggling a present id removes exactly its first occurrence: the list shrinks by one and
      the elements before and after that position keep their relative order. */
  lemma TogglePresent(s: seq<int>, id: int)
    requires id in s
    ensures var r := Toggled(s, id);
      exists k :: 0 <= k < |s| && s[k] == id && id !in s[..k] &&
                  |r| == |s| - 1 && r[..k] == s[..k] && r[k..] == s[k + 1..]
  {
    var k := IndexOf(s, id);
    var r := Toggled(s, id);
    assert r == s[..k] + s[k + 1..];
    assert r[..k] == s[..k];
    assert r[k..] == s[k + 1..];
  }

  /** As a multiset, a toggle removes one copy of a present id and adds one copy of an absent id. */
  lemma ToggleMultiset(s: seq<int>, id: int)
    ensures id in s ==> multiset(Toggled(s, id)) == multiset(s) - multiset{id}
    ensures id !in s ==> multiset(Toggled(s, id)) == multiset(s) + multiset{id}
  {
    var k := IndexOf(s, id);
    if k > -1 {
      assert s == s[..k] + [s[k]] + s[k + 1..];
      calc {
        multiset(s);
        multiset(s[..k]) + multiset{id} + multiset(s[k + 1..]);
        multiset(Toggled(s, id)) + multiset{id};
      }
    }
  }

  /** Removing position `k` shifts every later element down by one. */
  lemma RemoveAt(s: seq<int>, k: int)
    requires 0 <= k < |s|
    ensures |s[..k] + s[k + 1..]| == |s| - 1
    ensures forall i :: 0 <= i < k ==> (s[..k] + s[k + 1..])[i] == s[i]
    ensures forall i :: k < i < |s| ==> (s[..k] + s[k + 1..])[i - 1] == s[i]
  {
  }

  /** Membership of every other id is unchanged by a toggle; the toggled id's membership flips
      whenever the list has no duplicates. */
  lemma ToggleMembership(s: seq<int>, id: int, x: int)
    ensures x != id ==> (x in Toggled(s, id) <==> x in s)
    ensures NoDup(s) ==> (id in Toggled(s, id) <==> id !in s)
  {
    ToggleMultiset(s, id);
    assert x in Toggled(s, id) <==> x in multiset(Toggled(s, id));
    assert x in s <==> x in multiset(s);
    var k := IndexOf(s, id);
    if NoDup(s) && k > -1 {
      var r := Toggled(s, id);
      RemoveAt(s, k);
      forall j | 0 <= j < |r| ensures r[j] != id {
        if j < k {
          assert r[j] == s[j] && s[j] != s[k];
        } else {
          assert r[j] == s[j + 1] && s[k] != s[j + 1];
        }
      }
    }
  }

  /** A list without duplicates keeps having none after a toggle. */
  lemma ToggleKeepsNoDup(s: seq<int>, id: int)
    requires NoDup(s)
    ensures NoDup(Toggled(s, id))
  {
    var r := Toggled(s, id);
    var k := IndexOf(s, id);
    if k > -1 {
      RemoveAt(s, k);
      forall i, j | 0 <= i < j < |r| ensures r[i] != r[j] {
        var i' := if i < k then i else i + 1;
        var j' := if j < k then j else j + 1;
        assert r[i] == s[i'] && r[j] == s[j'] && i' < j';
      }
    } else {
      forall i, j | 0 <= i < j < |r| ensures r[i] != r[j] {
        if j == |s| {
          assert r[i] == s[i] && r[j] == id;
        } else {
          assert r[i] == s[i] && r[j] == s[j];
        }
      }
    }
  }

  /** Toggling an absent id twice gives back exactly the original list. */
  lemma DoubleToggleAbsent(s: seq<int>, id: int)
    requires id !in s
    ensures Toggled(Toggled(s, id), id) == s
  {
    var t := s + [id];
    assert forall j :: 0 <= j < |s| ==> t[j] == s[j];
    assert IndexOf(t, id) == |s|;
    assert t[..|s|] == s;
  }

  /** Toggling a present id twice (in a list without duplicates) gives back the same ids, but the
      id now sits at the end, after the other elements in their original order. */
  lemma DoubleTogglePresent(s: seq<int>, id: int)
    requires NoDup(s) && id in s
    ensures var r := Toggled(Toggled(s, id), id);
      multiset(r) == multiset(s) && r == Toggled(s, id) + [id]
  {
    var t := Toggled(s, id);
    ToggleMembership(s, id, id);
    assert IndexOf(t, id) == -1;
    ToggleMultiset(s, id);
    ToggleMultiset(t, id);
  }

  /** So a double toggle of a present id restores the list exactly when the id was already last. */
  lemma DoubleToggleOrder(s: seq<int>, id: int)
    requires NoDup(s) && id in s
    ensures Toggled(Toggled(s, id), id) == s <==> s[|s| - 1] == id
  {
    DoubleTogglePresent(s, id);
    var k := IndexOf(s, id);
    var r := Toggled(Toggled(s, id), id);
    assert r == s[..k] + s[k + 1..] + [id];
    assert r[|r| - 1] == id;
    if s[|s| - 1] == id {
      assert s[k] == s[|s| - 1];
      assert k == |s| - 1;
      assert s == s[..k] + [id];
    }
  }

  /** With a duplicated id, two toggles remove two copies: [5, 5] becomes []. */
  lemma DoubleToggleDuplicate()
    ensures Toggled(Toggled([5, 5], 5), 5) == []
  {
    assert IndexOf([5, 5], 5) == 0;
    assert [5, 5][1..] == [5];
    assert IndexOf([5], 5) == 0;
  }
}
