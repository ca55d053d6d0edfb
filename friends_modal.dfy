/**
 * The friend picker of the client (`FriendsModal`). Fetched usernames become
 * `Friend` records appended to `allFriends`; tapping a friend flips its
 * `isSelected` flag in place and adds it to or removes it from
 * `highlightedFriends`; closing or saving the modal hands that list to the
 * caller. Friends are objects and are compared by identity, as `includes`
 * and `!==` compare them.
 */
module FriendsModal {
  import opened Receipt

  /** The client's `Friend` record. */
  class Friend {
    var username: string
    var items: seq<Item>
    var amount: int
    var isSelected: bool

    /** A friend as `fetchFriends` builds it from a username. */
    constructor (username: string)
      ensures this.username == username && items == [] && amount == 0 && !isSelected
    {
      this.username := username;
      items := [];
      amount := 0;
      isSelected := false;
    }
  }

  /** `g` is the record `fetchFriends` builds for `username`. */
  ghost predicate IsNewFriend(g: Friend, username: string)
    reads g
  {
    g.username == username && g.items == [] && g.amount == 0 && !g.isSelected
  }

  /** `list.filter((thisFriend) => thisFriend !== friend)`. */
  function Remove(list: seq<Friend>, friend: Friend): (r: seq<Friend>)
    ensures friend !in r
    ensures forall g :: g in r ==> g in list
    ensures forall g :: g in list && g != friend ==> multiset(r)[g] == multiset(list)[g]
  {
    if list == [] then []
    else
      var rest := Remove(list[1..], friend);
      assert list == [list[0]] + list[1..];
      (if list[0] == friend then [] else [list[0]]) + rest
  }

  /** Filtering a concatenation filters each part. */
  lemma {:induction false} RemoveConcat(a: seq<Friend>, b: seq<Friend>, friend: Friend)
    ensures Remove(a + b, friend) == Remove(a, friend) + Remove(b, friend)
  {
    if a == [] {
      assert a + b == b;
    } else {
      assert (a + b)[1..] == a[1..] + b;
      RemoveConcat(a[1..], b, friend);
    }
  }

  /** Filtering out a friend that is not there changes nothing. */
  lemma {:induction false} RemoveAbsent(list: seq<Friend>, friend: Friend)
    requires friend !in list
    ensures Remove(list, friend) == list
  {
    if list != [] {
      assert friend !in list[1..];
      RemoveAbsent(list[1..], friend);
    }
  }

  /** The other friends keep their relative order: the result is a subsequence of `list`. */
  lemma {:induction false} RemoveKeepsOrder(list: seq<Friend>, friend: Friend, i: nat, j: nat)
    requires i < j < |Remove(list, friend)|
    ensures exists p: nat, q: nat :: p < q < |list| && list[p] == Remove(list, friend)[i] && list[q] == Remove(list, friend)[j]
  {
    var rest := Remove(list[1..], friend);
    var r := Remove(list, friend);
    if list[0] == friend {
      assert r == rest;
      RemoveKeepsOrder(list[1..], friend, i, j);
      var p: nat, q: nat :| p < q < |list[1..]| && list[1..][p] == rest[i] && list[1..][q] == rest[j];
      assert list[p + 1] == r[i] && list[q + 1] == r[j];
    } else if i == 0 {
      assert r[j] == rest[j - 1] && rest[j - 1] in rest;
      var q :| 0 <= q < |list[1..]| && list[1..][q] == rest[j - 1];
      assert list[0] == r[0] && list[q + 1] == r[j];
    } else {
      assert r[i] == rest[i - 1] && r[j] == rest[j - 1];
      RemoveKeepsOrder(list[1..], friend, i - 1, j - 1);
      var p: nat, q: nat :| p < q < |list[1..]| && list[1..][p] == rest[i - 1] && list[1..][q] == rest[j - 1];
      assert list[p + 1] == r[i] && list[q + 1] == r[j];
    }
  }

  /**
   * The highlighted list after a tap on `friend`: appended at the end when
   * absent, every occurrence removed when present.
   */
  function Toggle(list: seq<Friend>, friend: Friend): (r: seq<Friend>)
    ensures friend in r <==> friend !in list
    ensures forall g :: g in r && g != friend ==> g in list
    ensures forall g :: g in list && g != friend ==> multiset(r)[g] == multiset(list)[g]
  {
    if friend in list then Remove(list, friend) else list + [friend]
  }

  /** Tapping a friend that is not highlighted appends it and leaves the rest as it was. */
  lemma ToggleAppends(list: seq<Friend>, friend: Friend)
    requires friend !in list
    ensures |Toggle(list, friend)| == |list| + 1
    ensures Toggle(list, friend)[..|list|] == list && Toggle(list, friend)[|list|] == friend
  {
  }

  /** Tapping a friend twice, from a list without it, gives the list back. */
  lemma ToggleTwice(list: seq<Friend>, friend: Friend)
    requires friend !in list
    ensures Toggle(Toggle(list, friend), friend) == list
  {
    RemoveConcat(list, [friend], friend);
    RemoveAbsent(list, friend);
    assert Remove([friend], friend) == [];
  }

  /** The list after `n` taps on the same friend. */
  function ToggleTimes(list: seq<Friend>, friend: Friend, n: nat): seq<Friend> {
    if n == 0 then list else Toggle(ToggleTimes(list, friend, n - 1), friend)
  }

  /** After `n` taps a friend that was not highlighted is highlighted exactly when `n` is odd. */
  lemma {:induction false} ToggleParity(list: seq<Friend>, friend: Friend, n: nat)
    requires friend !in list
    ensures ToggleTimes(list, friend, n) == if n % 2 == 0 then list else list + [friend]
  {
    if n > 0 {
      ToggleParity(list, friend, n - 1);
      if n % 2 == 0 {
        ToggleTwice(list, friend);
      }
    }
  }

  /** The modal's state: every fetched friend, and the friends tapped into the selection. */
  class Modal {
    var allFriends: seq<Friend>
    var highlightedFriends: seq<Friend>

    /** Both lists start empty (`useState<Friend[]>([])`). */
    constructor ()
      ensures allFriends == [] && highlightedFriends == []
      ensures Consistent()
    {
      allFriends := [];
      highlightedFriends := [];
    }

    /** Every fetched friend's flag says whether it is in the highlighted list. */
    ghost predicate Consistent()
      reads this, allFriends
    {
      forall g :: g in allFriends ==> (g.isSelected <==> g in highlightedFriends)
    }

    /**
     * The `forEach` of `fetchFriends` over the usernames the server sent: one
     * new, unselected friend per username, appended in the order received.
     */
    method FetchFriends(usernames: seq<string>)
      modifies this`allFriends
      ensures |allFriends| == |old(allFriends)| + |usernames|
      ensures allFriends[..|old(allFriends)|] == old(allFriends)
      ensures forall i :: 0 <= i < |usernames| ==>
        fresh(allFriends[|old(allFriends)| + i]) && IsNewFriend(allFriends[|old(allFriends)| + i], usernames[i])
      ensures old(Consistent()) ==> Consistent()
    {
      ghost var added: seq<Friend> := [];
      for i := 0 to |usernames|
        invariant allFriends == old(allFriends) + added
        invariant |added| == i
        invariant forall j :: 0 <= j < i ==> fresh(added[j]) && IsNewFriend(added[j], usernames[j])
        invariant old(Consistent()) ==> Consistent()
      {
        var friend := new Friend(usernames[i]);
        assert friend !in highlightedFriends;
        allFriends := allFriends + [friend];
        added := added + [friend];
      }
      assert forall i :: 0 <= i < |usernames| ==> allFriends[|old(allFriends)| + i] == added[i];
    }

    /**
     * `handleSelectFriend`: flips the friend's flag in place and toggles it in
     * the highlighted list; no other friend's flag changes.
     */
    method HandleSelectFriend(friend: Friend)
      modifies friend`isSelected, this`highlightedFriends
      ensures friend.isSelected == !old(friend.isSelected)
      ensures highlightedFriends == Toggle(old(highlightedFriends), friend)
      ensures old(Consistent()) ==> Consistent()
    {
      friend.isSelected := !friend.isSelected;
      highlightedFriends := Toggle(highlightedFriends, friend);
      assert forall g :: g != friend ==> (g in highlightedFriends <==> g in old(highlightedFriends)) by {
        forall g | g != friend
          ensures g in highlightedFriends <==> g in old(highlightedFriends)
        {
          assert multiset(highlightedFriends)[g] == multiset(old(highlightedFriends))[g];
        }
      }
    }

    /**
     * `n` taps on the same friend's card: the flag ends flipped exactly when
     * `n` is odd, and the highlighted list is the list toggled `n` times.
     */
    method TapRepeatedly(friend: Friend, n: nat)
      modifies friend`isSelected, this`highlightedFriends
      ensures friend.isSelected == (old(friend.isSelected) != (n % 2 == 1))
      ensures highlightedFriends == ToggleTimes(old(highlightedFriends), friend, n)
      ensures old(Consistent()) ==> Consistent()
    {
      for i := 0 to n
        invariant friend.isSelected == (old(friend.isSelected) != (i % 2 == 1))
        invariant highlightedFriends == ToggleTimes(old(highlightedFriends), friend, i)
        invariant old(Consistent()) ==> Consistent()
      {
        HandleSelectFriend(friend);
      }
    }

    /** The close request and the Save button hand the highlighted list to the caller. */
    method HandleCloseModal() returns (selected: seq<Friend>)
      ensures selected == highlightedFriends
    {
      selected := highlightedFriends;
    }
  }
}
