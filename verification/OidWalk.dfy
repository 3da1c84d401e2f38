// The walker: a subtree read by repeated GETNEXT with a text test for "still below".
module OidWalk {
  import opened Wrappers
  import opened Lexicographic
  import opened DottedText
  import opened MibAgent

  // ----- what a walk should return -----

  // The binding at k is below the prefix and its predecessor has another OID.
  predicate Counts(tree: seq<Binding>, p: Oid, k: nat)
    requires k < |tree|
  {
    p < tree[k].oid && (k == 0 || tree[k - 1].oid != tree[k].oid)
  }

  // Among the first n bindings: the first of each distinct OID strictly below the prefix.
  function FirstBelow(tree: seq<Binding>, p: Oid, n: nat): seq<Binding>
    requires n <= |tree|
  {
    if n == 0 then []
    else FirstBelow(tree, p, n - 1) + if Counts(tree, p, n - 1) then [tree[n - 1]] else []
  }

  ghost predicate StrictlyAscending(bindings: seq<Binding>) {
    forall i, j :: 0 <= i < j < |bindings| ==> Less(bindings[i].oid, bindings[j].oid)
  }

  ghost predicate FirstOfItsOid(tree: seq<Binding>, i: nat)
    requires i < |tree|
  {
    forall j :: 0 <= j < i ==> tree[j].oid != tree[i].oid
  }

  // In a sorted tree a binding is the first of its OID unless its neighbour has the same one.
  lemma FirstWhenNew(tree: seq<Binding>, i: nat)
    requires OrderedTree(tree) && i < |tree|
    ensures FirstOfItsOid(tree, i) <==> (i == 0 || tree[i - 1].oid != tree[i].oid)
  {
    if i > 0 && tree[i - 1].oid != tree[i].oid {
      var keys := Keys(tree);
      forall j | 0 <= j < i ensures tree[j].oid != tree[i].oid {
        assert LessEq(keys[j], keys[i - 1]) && LessEq(keys[i - 1], keys[i]);
        LessLessEq(keys[j], keys[i - 1], keys[i]);
        Irreflexive(keys[i]);
      }
    }
  }

  // On a sorted tree FirstBelow holds exactly the first binding of each OID below the
  // prefix ...
  lemma {:induction false} FirstBelowHolds(tree: seq<Binding>, p: Oid, n: nat, b: Binding)
    requires OrderedTree(tree) && n <= |tree|
    ensures b in FirstBelow(tree, p, n) <==>
            exists i :: 0 <= i < n && tree[i] == b && p < b.oid && FirstOfItsOid(tree, i)
  {
    if n > 0 {
      FirstBelowHolds(tree, p, n - 1, b);
      FirstWhenNew(tree, n - 1);
    }
  }

  // ... in strictly ascending OID order.
  lemma {:induction false} FirstBelowAscends(tree: seq<Binding>, p: Oid, n: nat)
    requires OrderedTree(tree) && n <= |tree|
    ensures StrictlyAscending(FirstBelow(tree, p, n))
  {
    if n > 0 {
      FirstBelowAscends(tree, p, n - 1);
      if Counts(tree, p, n - 1) {
        var init := FirstBelow(tree, p, n - 1);
        forall i | 0 <= i < |init| ensures Less(init[i].oid, tree[n - 1].oid) { NewIsAbove(tree, p, n - 1, init[i]); }
      }
    }
  }

  lemma NewIsAbove(tree: seq<Binding>, p: Oid, n: nat, b: Binding)
    requires OrderedTree(tree) && n < |tree| && Counts(tree, p, n) && b in FirstBelow(tree, p, n)
    ensures Less(b.oid, tree[n].oid)
  {
    FirstWhenNew(tree, n);
    FirstBelowHolds(tree, p, n, b);
    var k :| 0 <= k < n && tree[k] == b;
    assert LessEq(Keys(tree)[k], Keys(tree)[n]);
  }

  // ----- how far a walk has come -----

  // Nothing at or before the prefix itself is below it.
  lemma {:induction false} NoneBelowYet(tree: seq<Binding>, p: Oid, n: nat)
    requires n <= |tree| && forall k :: 0 <= k < n ==> LessEq(tree[k].oid, p)
    ensures FirstBelow(tree, p, n) == []
  {
    if n > 0 {
      NoneBelowYet(tree, p, n - 1);
      if p < tree[n - 1].oid {
        ExtensionFollows(p, tree[n - 1].oid);
        Asymmetric(p, tree[n - 1].oid);
      }
    }
  }

  // Bindings repeating the OID of an earlier one, or not below the prefix, add nothing.
  lemma {:induction false} NothingAdded(tree: seq<Binding>, p: Oid, m: nat, n: nat)
    requires m <= n <= |tree|
    requires forall k :: m <= k < n ==> !Counts(tree, p, k)
    ensures FirstBelow(tree, p, n) == FirstBelow(tree, p, m)
  {
    if m < n { NothingAdded(tree, p, m, n - 1); }
  }

  // One successful GETNEXT adds its binding and passes all others with the same OID.
  lemma StepAdds(tree: seq<Binding>, p: Oid, current: Oid, i: nat, j: nat)
    requires OrderedTree(tree) && i < |tree| && LessEq(p, current) && p <= tree[i].oid
    requires SplitsRight(Keys(tree), current, i) && SplitsRight(Keys(tree), tree[i].oid, j)
    ensures i < j && FirstBelow(tree, p, j) == FirstBelow(tree, p, i) + [tree[i]]
  {
    NextCounts(tree, p, current, i);
    Passes(Keys(tree), i, j);
    RepeatsAddNothing(tree, p, i, j);
    OneAdded(tree, p, i, j);
  }

  lemma OneAdded(tree: seq<Binding>, p: Oid, i: nat, j: nat)
    requires i < j <= |tree| && Counts(tree, p, i) && forall k :: i + 1 <= k < j ==> !Counts(tree, p, k)
    ensures FirstBelow(tree, p, j) == FirstBelow(tree, p, i) + [tree[i]]
  {
    NothingAdded(tree, p, i + 1, j);
  }

  lemma Passes(keys: seq<Oid>, i: nat, j: nat)
    requires i < |keys| && SplitsRight(keys, keys[i], j)
    ensures i < j
  {
    Irreflexive(keys[i]);
  }

  lemma NextCounts(tree: seq<Binding>, p: Oid, current: Oid, i: nat)
    requires i < |tree| && LessEq(p, current) && p <= tree[i].oid
    requires SplitsRight(Keys(tree), current, i)
    ensures Counts(tree, p, i)
  {
    var keys := Keys(tree);
    assert Less(current, keys[i]);
    LessLessEq(p, current, keys[i]);
    Irreflexive(keys[i]);
    assert p != tree[i].oid;
    if i > 0 {
      assert LessEq(keys[i - 1], current);
      LessLessEq(keys[i - 1], current, keys[i]);
    }
  }

  lemma RepeatsAddNothing(tree: seq<Binding>, p: Oid, i: nat, j: nat)
    requires OrderedTree(tree) && i < j <= |tree|
    requires forall k :: 0 <= k < j ==> LessEq(Keys(tree)[k], tree[i].oid)
    ensures forall k :: i + 1 <= k < j ==> !Counts(tree, p, k)
  {
    var keys := Keys(tree);
    forall k | i + 1 <= k < j ensures !Counts(tree, p, k) {
      SameBetween(keys, i, k, keys[i]);
      SameBetween(keys, i, k - 1, keys[i]);
    }
  }

  lemma SameBetween(keys: seq<Oid>, i: nat, k: nat, x: Oid)
    requires Ordered(keys) && i <= k < |keys| && keys[i] == x && LessEq(keys[k], x)
    ensures keys[k] == x
  {
    if i < k && keys[k] != x {
      assert LessEq(keys[i], keys[k]);
      Asymmetric(keys[k], x);
    }
  }

  // When the next binding has left the subtree, so has everything after it.
  lemma LeftForGood(tree: seq<Binding>, p: Oid, current: Oid, i: nat)
    requires OrderedTree(tree) && i <= |tree| && LessEq(p, current)
    requires SplitsRight(Keys(tree), current, i)
    requires i < |tree| ==> !(p <= tree[i].oid)
    ensures FirstBelow(tree, p, |tree|) == FirstBelow(tree, p, i)
  {
    var keys := Keys(tree);
    forall k | i <= k < |tree| ensures !Counts(tree, p, k) {
      if p < tree[k].oid {
        assert Less(current, keys[i]);
        LessLessEq(p, current, keys[i]);
        if i < k { assert LessEq(keys[i], keys[k]); }
        ExtensionsContiguous(p, keys[i], keys[k]);
      }
    }
    NothingAdded(tree, p, i, |tree|);
  }

  // A walk below p whose last OID is `current` has passed exactly the first i bindings.
  ghost predicate Standing(tree: seq<Binding>, p: Oid, current: Oid, i: nat) {
    && i <= |tree| && LessEq(p, current) && SplitsRight(Keys(tree), current, i)
    && Next(tree, current) == if i < |tree| then Some(tree[i]) else None
  }

  lemma Start(tree: seq<Binding>, p: Oid) returns (i: nat)
    requires OrderedTree(tree)
    ensures Standing(tree, p, p, i) && FirstBelow(tree, p, i) == []
  {
    i := NextIsFirst(tree, p);
    NoneBelowYet(tree, p, i);
  }

  lemma Step(tree: seq<Binding>, p: Oid, current: Oid, i: nat) returns (j: nat)
    requires OrderedTree(tree) && Standing(tree, p, current, i) && i < |tree| && p <= tree[i].oid
    ensures Standing(tree, p, tree[i].oid, j) && i < j
    ensures FirstBelow(tree, p, j) == FirstBelow(tree, p, i) + [tree[i]]
  {
    j := NextIsFirst(tree, tree[i].oid);
    StepAdds(tree, p, current, i, j);
    assert Less(current, Keys(tree)[i]);
    LessLessEq(p, current, tree[i].oid);
  }

  // ----- the client -----

  datatype Pair = Pair(oid: string, value: Value)

  function Texts(bindings: seq<Binding>): (r: seq<Pair>)
    ensures |r| == |bindings|
    ensures forall i :: 0 <= i < |bindings| ==> r[i] == Pair(OidText(bindings[i].oid), bindings[i].value)
  {
    seq(|bindings|, i requires 0 <= i < |bindings| => Pair(OidText(bindings[i].oid), bindings[i].value))
  }

  lemma TextsAppend(bindings: seq<Binding>, b: Binding)
    ensures Texts(bindings + [b]) == Texts(bindings) + [Pair(OidText(b.oid), b.value)]
  {}

  // The result of a walk: None when the prefix text is no OID (int() raises).
  function Walked(tree: seq<Binding>, prefix: string): Option<seq<Pair>> {
    match ParseOid(prefix)
    case None => None
    case Some(p) => if StripDots(prefix) == OidText(p) then Some(Texts(FirstBelow(tree, p, |tree|))) else Some([])
  }

  const REQUEST_IDS: int := 0x8000_0000

  // The request id after n more requests.
  function IdAfter(id: int, n: nat): int {
    if n == 0 then id else (IdAfter(id, n - 1) + 1) % REQUEST_IDS
  }

  lemma {:induction false} IdAfterIs(id: int, n: nat)
    requires 0 <= id < REQUEST_IDS
    ensures IdAfter(id, n) == (id + n) % REQUEST_IDS
  {
    if n > 0 { IdAfterIs(id, n - 1); }
  }

  // Of any 2^31 requests in a row no two have the same id.
  lemma RequestIdsDiffer(id: int, m: nat, n: nat)
    requires 0 <= id < REQUEST_IDS && m < n < m + REQUEST_IDS
    ensures IdAfter(id, m) != IdAfter(id, n)
  {
    IdAfterIs(id, m);
    IdAfterIs(id, n);
    NearbyDiffer(id + m, id + n, REQUEST_IDS);
  }

  lemma NearbyDiffer(x: int, y: int, n: int)
    requires 0 < n && x < y < x + n
    ensures x % n != y % n
  {
    var q := y / n - x / n;
    assert y - x == n * q + (y % n - x % n);
    if q <= 0 { assert n * q <= 0; } else { assert n * q >= n; }
  }

  class SNMPClient {
    var requestId: int

    constructor (start: int)
      requires 1 <= start <= 0x1_0000
      ensures requestId == start
    {
      requestId := start;
    }

    method NextRequestId() returns (id: int)
      modifies this
      ensures id == requestId == IdAfter(old(requestId), 1)
    {
      requestId := (requestId + 1) % REQUEST_IDS;
      id := requestId;
    }

    // One GETNEXT exchange with an agent that answers; None at the end of the view.
    method GetNext(agent: SNMPAgent, text: string, ghost oid: Oid) returns (r: Option<Pair>)
      requires agent.Valid() && ParseOid(text) == Some(oid)
      modifies this
      ensures unchanged(agent)
      ensures r == match Next(agent.mibTree, oid)
                   case Some(b) => Some(Pair(OidText(b.oid), b.value))
                   case None => None
    {
      var _ := NextRequestId();
      var answers := agent.ProcessGetNext([ParseOid(text).value]);
      var answer := answers[0];
      if answer.reply == EndOfMibView || answer.reply == NoSuchInstance {
        return None;
      }
      r := Some(Pair(OidText(answer.oid), answer.reply.value));
    }

    method Walk(agent: SNMPAgent, oidPrefix: string) returns (r: Option<seq<Pair>>)
      requires agent.Valid() && OrderedTree(agent.mibTree)
      modifies this
      ensures unchanged(agent)
      ensures r == Walked(agent.mibTree, oidPrefix)
    {
      if ParseOid(oidPrefix) == None {
        return None;
      }
      var prefix := StripDots(oidPrefix);
      var results := [];
      var currentOid := oidPrefix;
      ghost var tree, p := agent.mibTree, ParseOid(oidPrefix).value;
      ghost var current, canonical := p, prefix == OidText(p);
      ghost var i := Start(tree, p);
      while true
        invariant agent.Valid() && agent.mibTree == tree
        invariant ParseOid(currentOid) == Some(current) && Standing(tree, p, current, i)
        invariant results == if canonical then Texts(FirstBelow(tree, p, i)) else []
        decreases |tree| - i
      {
        var pair := GetNext(agent, currentOid, current);
        if pair == None {
          LeftForGood(tree, p, current, i);
          break;
        }
        TestMeans(tree, oidPrefix, p, current, i);
        if !UnderText(prefix, StripDots(pair.value.oid)) {
          if canonical { LeftForGood(tree, p, current, i); }
          break;
        }
        results := results + [pair.value];
        currentOid := pair.value.oid;
        ghost var j := Step(tree, p, current, i);
        TextsAppend(FirstBelow(tree, p, i), tree[i]);
        current, i := tree[i].oid, j;
      }
      r := Some(results);
    }
  }

  // What the text test says about the binding that GETNEXT returned.
  lemma TestMeans(tree: seq<Binding>, text: string, p: Oid, current: Oid, i: nat)
    requires ParseOid(text) == Some(p)
    requires Standing(tree, p, current, i) && i < |tree|
    ensures ParseOid(OidText(tree[i].oid)) == Some(tree[i].oid)
    ensures UnderText(StripDots(text), StripDots(OidText(tree[i].oid)))
            <==> (StripDots(text) == OidText(p) && p <= tree[i].oid)
  {
    assert Less(current, Keys(tree)[i]);
    OidTextSplit(tree[i].oid);
    OidRoundTrip(tree[i].oid);
    UnderTextMeansPrefix(text, p, tree[i].oid);
  }
}
