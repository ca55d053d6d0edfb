/**
 * `assign_items`, written the same way in both Flask apps: the items are
 * handed out round robin, item `i` going to friend `i mod (number of friends)`,
 * in item order, each keeping its name and cost.
 */
module Assignment {
  import opened Receipt

  /** One record of the response, `{"item": ..., "cost": ..., "assigned_to": ...}`. */
  datatype Assigned = Assigned(item: string, cost: nat, assignedTo: string)

  /** The JSON body of the request; a key the body lacks is `None`. */
  datatype AssignRequest = AssignRequest(items: Option<seq<Item>>, friends: Option<seq<string>>)

  datatype AssignError =
    | InvalidRequestData  // the body lacks "items" or "friends": answered with 400
    | DivisionByZero      // items but no friends: `i % len(friends)` raises, the request fails

  /** The assignment of `items` when the first of them goes to friend number `start`. */
  function RoundRobin(items: seq<Item>, friends: seq<string>, start: nat): (r: seq<Assigned>)
    requires items == [] || friends != []
    ensures |r| == |items|
    ensures forall i :: 0 <= i < |items| ==>
      r[i] == Assigned(items[i].name, items[i].cost, friends[(start + i) % |friends|])
  {
    if items == [] then []
    else
      var first := Assigned(items[0].name, items[0].cost, friends[start % |friends|]);
      var rest := RoundRobin(items[1..], friends, start + 1);
      assert forall i :: 1 <= i < |items| ==> items[i] == items[1..][i - 1];
      [first] + rest
  }

  /** The items of an assignment, without whom they went to. */
  function Unassign(r: seq<Assigned>): seq<Item> {
    if r == [] then [] else [Item(r[0].item, r[0].cost)] + Unassign(r[1..])
  }

  /** Assigning loses nothing: dropping `assigned_to` gives back the items, in order. */
  lemma {:induction false} UnassignRoundRobin(items: seq<Item>, friends: seq<string>, start: nat)
    requires items == [] || friends != []
    ensures Unassign(RoundRobin(items, friends, start)) == items
  {
    if items != [] {
      var r := RoundRobin(items, friends, start);
      assert r[1..] == RoundRobin(items[1..], friends, start + 1);
      UnassignRoundRobin(items[1..], friends, start + 1);
      assert items == [items[0]] + items[1..];
    }
  }

  /** With at least as many items as friends, the first round gives every friend one item. */
  lemma FirstRoundCoversEveryFriend(items: seq<Item>, friends: seq<string>, j: nat)
    requires 0 <= j < |friends| <= |items|
    ensures RoundRobin(items, friends, 0)[j].assignedTo == friends[j]
  {
    assert j % |friends| == j;
  }

  /** Item `i + |friends|` goes to the same friend as item `i`. */
  lemma AssignmentRepeats(items: seq<Item>, friends: seq<string>, i: nat)
    requires friends != [] && i + |friends| < |items|
    ensures RoundRobin(items, friends, 0)[i + |friends|].assignedTo == RoundRobin(items, friends, 0)[i].assignedTo
  {
    var r := RoundRobin(items, friends, 0);
    assert r[i].assignedTo == friends[i % |friends|];
    assert r[i + |friends|].assignedTo == friends[(i + |friends|) % |friends|];
    ModShift(i, |friends|);
  }

  /** Adding the modulus does not change a remainder. */
  lemma ModShift(i: nat, k: nat)
    requires k > 0
    ensures (i + k) % k == i % k
  {
    var q, r := i / k, i % k;
    assert i + k == (q + 1) * k + r;
    ModUnique(i + k, k, q + 1, r);
  }

  lemma MulAtLeast(d: nat, k: nat)
    requires d >= 1
    ensures d * k >= k
  {
    assert d * k == (d - 1) * k + k;
  }

  /** A division with a remainder in `[0, k)` is the Euclidean one. */
  lemma ModUnique(a: nat, k: nat, q: nat, r: nat)
    requires k > 0 && r < k && a == q * k + r
    ensures a % k == r
  {
    var q', r' := a / k, a % k;
    assert q' * k + r' == q * k + r;
    if q' > q {
      MulAtLeast(q' - q, k);
      assert false;
    } else if q' < q {
      MulAtLeast(q - q', k);
      assert false;
    }
  }

  /** The `/assign-items` handler. */
  method AssignItems(request: AssignRequest) returns (res: Result<seq<Assigned>, AssignError>)
    ensures request.items.None? || request.friends.None? ==> res == Failure(InvalidRequestData)
    ensures request.items.Some? && request.friends.Some? ==>
      var items, friends := request.items.value, request.friends.value;
      res == if items != [] && friends == [] then Failure(DivisionByZero)
             else Success(RoundRobin(items, friends, 0))
  {
    if request.items.None? || request.friends.None? {
      return Failure(InvalidRequestData);
    }
    var items, friends := request.items.value, request.friends.value;
    var handedOut: seq<Assigned> := [];
    for i := 0 to |items|
      invariant i > 0 ==> friends != []
      invariant |handedOut| == i
      invariant forall j :: 0 <= j < i ==>
        handedOut[j] == Assigned(items[j].name, items[j].cost, friends[j % |friends|])
    {
      if |friends| == 0 {
        return Failure(DivisionByZero);
      }
      handedOut := handedOut + [Assigned(items[i].name, items[i].cost, friends[i % |friends|])];
    }
    assert items != [] ==> friends != [];
    assert handedOut == RoundRobin(items, friends, 0);
    res := Success(handedOut);
  }
}
