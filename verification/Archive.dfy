/** Deduplication of the anytime archive: update in place, first position kept, against a fold per identity. */
module Archive {
  import opened Wrappers
  import opened Lists

  /** The namespace's own functions. */
  datatype Policy<!E> = Policy(
    identity: E -> Option<string>,
    validate: E -> bool,
    selectDuplicate: (E, E) -> E)

  /** The namespace's ranking and the lists it has been handed. */
  class Ranker<!E> {
    const order: seq<E> -> seq<E>
    var handed: seq<seq<E>>

    constructor (order: seq<E> -> seq<E>)
      ensures this.order == order && handed == []
    {
      this.order, handed := order, [];
    }

    method Rank(items: seq<E>) returns (ranked: seq<E>)
      modifies this
      ensures handed == old(handed) + [items] && ranked == order(items)
    {
      handed := handed + [items];
      ranked := order(items);
    }
  }

  /** The identity under which an endpoint is stored, if it is stored at all. */
  function KeyOf<E>(policy: Policy<E>, endpoint: E): Option<string> {
    if !policy.validate(endpoint) then None
    else match policy.identity(endpoint)
      case Some(key) => if key == "" then None else Some(key)
      case None => None
  }

  /** The identities in order of their first valid occurrence. */
  function Identities<E>(policy: Policy<E>, endpoints: seq<E>): seq<string> {
    if endpoints == [] then []
    else
      var before := Identities(policy, endpoints[..|endpoints| - 1]);
      match KeyOf(policy, endpoints[|endpoints| - 1])
      case Some(key) => if key in before then before else before + [key]
      case None => before
  }

  /** The left fold of the duplicates' selection over the valid endpoints with an identity. */
  function Folded<E>(policy: Policy<E>, endpoints: seq<E>, key: string): Option<E> {
    if endpoints == [] then None
    else
      var before, last := Folded(policy, endpoints[..|endpoints| - 1], key), endpoints[|endpoints| - 1];
      if KeyOf(policy, last) != Some(key) then before
      else match before
        case None => Some(last)
        case Some(value) => Some(policy.selectDuplicate(value, last))
  }

  /** `order` holds the folded endpoint of every identity at the identity's position. */
  ghost predicate Holds<E>(policy: Policy<E>, endpoints: seq<E>, order: seq<E>) {
    var keys := Identities(policy, endpoints);
    |order| == |keys| && forall i | 0 <= i < |keys| :: Folded(policy, endpoints, keys[i]) == Some(order[i])
  }

  ghost predicate Indexes(index: map<string, nat>, keys: seq<string>) {
    && (forall i | 0 <= i < |keys| :: keys[i] in index && index[keys[i]] == i)
    && (forall key | key in index :: index[key] < |keys| && keys[index[key]] == key)
  }

  /** The deduplicated endpoints are handed to the ranking exactly once, and its result is returned. */
  method RetainNamespace<E>(policy: Policy<E>, ranker: Ranker<E>, endpoints: seq<E>) returns (retained: seq<E>)
    modifies ranker
    ensures ranker.handed == old(ranker.handed) + [Deduplicated(policy, endpoints)]
    ensures retained == ranker.order(Deduplicated(policy, endpoints))
  {
    var order: seq<E> := [];
    var index: map<string, nat> := map[];
    for n := 0 to |endpoints|
      invariant ranker.handed == old(ranker.handed)
      invariant Holds(policy, endpoints[..n], order)
      invariant Indexes(index, Identities(policy, endpoints[..n]))
    {
      var endpoint := endpoints[n];
      Longer(policy, endpoints, n, order);
      assert endpoints[..n + 1][..n] == endpoints[..n];
      if !policy.validate(endpoint) {
        continue;
      }
      var identity := policy.identity(endpoint);
      if identity.None? || identity.value == "" {
        continue;
      }
      var key := identity.value;
      if key !in index {
        index := index[key := |order|];
        order := order + [endpoint];
      } else {
        order := order[index[key] := policy.selectDuplicate(order[index[key]], endpoint)];
      }
    }
    assert endpoints[..|endpoints|] == endpoints;
    HeldAreDeduplicated(policy, endpoints, order);
    retained := ranker.Rank(order);
  }

  /** The folded endpoint of every identity, in order of first valid occurrence. */
  function Deduplicated<E>(policy: Policy<E>, endpoints: seq<E>): seq<E> {
    var keys := Identities(policy, endpoints);
    seq(|keys|, i requires 0 <= i < |keys| =>
      UnseenHasNoFold(policy, endpoints, keys[i]);
      Folded(policy, endpoints, keys[i]).value)
  }

  lemma HeldAreDeduplicated<E>(policy: Policy<E>, endpoints: seq<E>, order: seq<E>)
    requires Holds(policy, endpoints, order)
    ensures order == Deduplicated(policy, endpoints)
  {
    var keys := Identities(policy, endpoints);
    forall i | 0 <= i < |keys| ensures order[i] == Deduplicated(policy, endpoints)[i] {
      assert Folded(policy, endpoints, keys[i]) == Some(order[i]);
    }
  }

  /** What one more endpoint does to the identities and folds. */
  lemma Longer<E>(policy: Policy<E>, endpoints: seq<E>, n: nat, order: seq<E>)
    requires n < |endpoints| && Holds(policy, endpoints[..n], order)
    ensures var keys, more := Identities(policy, endpoints[..n]), Identities(policy, endpoints[..n + 1]);
            match KeyOf(policy, endpoints[n])
            case None => more == keys && Holds(policy, endpoints[..n + 1], order)
            case Some(key) =>
              if key !in keys then more == keys + [key] && Holds(policy, endpoints[..n + 1], order + [endpoints[n]])
              else more == keys && forall i | 0 <= i < |keys| && keys[i] == key ::
                Holds(policy, endpoints[..n + 1], order[i := policy.selectDuplicate(order[i], endpoints[n])])
  {
    var before, after := endpoints[..n], endpoints[..n + 1];
    assert after[..n] == before;
    IdentitiesAreDistinct(policy, before);
    match KeyOf(policy, endpoints[n])
    case None =>
    case Some(key) =>
      if key !in Identities(policy, before) {
        UnseenHasNoFold(policy, before, key);
      }
  }

  ghost predicate IsFirst<E>(policy: Policy<E>, endpoints: seq<E>, key: string, i: nat) {
    && i < |endpoints| && KeyOf(policy, endpoints[i]) == Some(key)
    && forall k | 0 <= k < i :: KeyOf(policy, endpoints[k]) != Some(key)
  }

  lemma {:induction false} UnseenHasNoFold<E>(policy: Policy<E>, endpoints: seq<E>, key: string)
    ensures key !in Identities(policy, endpoints) <==> Folded(policy, endpoints, key) == None
    ensures key !in Identities(policy, endpoints) <==>
      forall i | 0 <= i < |endpoints| :: KeyOf(policy, endpoints[i]) != Some(key)
  {
    if endpoints != [] {
      UnseenHasNoFold(policy, endpoints[..|endpoints| - 1], key);
    }
  }

  /** An endpoint that is not valid, or has no identity or the empty one. */
  predicate IsIgnored<E>(policy: Policy<E>, endpoint: E) {
    || !policy.validate(endpoint)
    || policy.identity(endpoint) == None
    || policy.identity(endpoint) == Some("")
  }

  /** An ignored endpoint changes nothing, wherever it stands. */
  lemma IgnoredChangesNothing<E>(policy: Policy<E>, before: seq<E>, endpoint: E, after: seq<E>)
    requires IsIgnored(policy, endpoint)
    ensures Deduplicated(policy, before + [endpoint] + after) == Deduplicated(policy, before + after)
  {
    IdentitiesSkip(policy, before, endpoint, after);
    var keys := Identities(policy, before + after);
    forall i | 0 <= i < |keys|
      ensures Folded(policy, before + [endpoint] + after, keys[i]) == Folded(policy, before + after, keys[i])
    {
      FoldSkips(policy, before, endpoint, after, keys[i]);
    }
  }

  lemma {:induction false} IdentitiesSkip<E>(policy: Policy<E>, before: seq<E>, endpoint: E, after: seq<E>)
    requires IsIgnored(policy, endpoint)
    ensures Identities(policy, before + [endpoint] + after) == Identities(policy, before + after)
  {
    var longer, shorter := before + [endpoint] + after, before + after;
    if after == [] {
      assert longer[..|longer| - 1] == before && shorter == before;
    } else {
      var n := |after| - 1;
      IdentitiesSkip(policy, before, endpoint, after[..n]);
      assert longer[..|longer| - 1] == before + [endpoint] + after[..n];
      assert shorter[..|shorter| - 1] == before + after[..n];
    }
  }

  lemma {:induction false} FoldSkips<E>(policy: Policy<E>, before: seq<E>, endpoint: E, after: seq<E>, key: string)
    requires IsIgnored(policy, endpoint)
    ensures Folded(policy, before + [endpoint] + after, key) == Folded(policy, before + after, key)
  {
    var longer, shorter := before + [endpoint] + after, before + after;
    if after == [] {
      assert longer[..|longer| - 1] == before && shorter == before;
    } else {
      var n := |after| - 1;
      FoldSkips(policy, before, endpoint, after[..n], key);
      assert longer[..|longer| - 1] == before + [endpoint] + after[..n];
      assert shorter[..|shorter| - 1] == before + after[..n];
    }
  }

  /** The endpoints that count for an identity, in order. */
  function Matching<E>(policy: Policy<E>, endpoints: seq<E>, key: string): seq<E> {
    if endpoints == [] then []
    else if !IsIgnored(policy, endpoints[0]) && policy.identity(endpoints[0]) == Some(key) then
      [endpoints[0]] + Matching(policy, endpoints[1..], key)
    else Matching(policy, endpoints[1..], key)
  }

  function FoldLeft<E>(f: (E, E) -> E, value: E, items: seq<E>): E {
    if items == [] then value else FoldLeft(f, f(value, items[0]), items[1..])
  }

  lemma {:induction false} FoldLeftNext<E>(f: (E, E) -> E, value: E, items: seq<E>, next: E)
    ensures FoldLeft(f, value, items + [next]) == f(FoldLeft(f, value, items), next)
  {
    if items == [] {
      assert items + [next] == [next];
    } else {
      FoldLeftNext(f, f(value, items[0]), items[1..], next);
      assert (items + [next])[1..] == items[1..] + [next];
    }
  }

  lemma {:induction false} MatchingNext<E>(policy: Policy<E>, endpoints: seq<E>, next: E, key: string)
    ensures Matching(policy, endpoints + [next], key) == Matching(policy, endpoints, key)
      + if !IsIgnored(policy, next) && policy.identity(next) == Some(key) then [next] else []
  {
    if endpoints == [] {
      assert endpoints + [next] == [next];
    } else {
      MatchingNext(policy, endpoints[1..], next, key);
      assert (endpoints + [next])[1..] == endpoints[1..] + [next];
    }
  }

  /** What is stored for an identity is the first of its endpoints, folded with the later ones from left to right. */
  lemma {:induction false} FoldedIsLeftFold<E>(policy: Policy<E>, endpoints: seq<E>, key: string)
    ensures var items := Matching(policy, endpoints, key);
            Folded(policy, endpoints, key) ==
              if items == [] then None else Some(FoldLeft(policy.selectDuplicate, items[0], items[1..]))
  {
    if endpoints != [] {
      var init, last := endpoints[..|endpoints| - 1], endpoints[|endpoints| - 1];
      FoldedIsLeftFold(policy, init, key);
      MatchingNext(policy, init, last, key);
      assert endpoints == init + [last];
      KeyOfMatching(policy, last, key);
      var items, all := Matching(policy, init, key), Matching(policy, endpoints, key);
      if KeyOf(policy, last) != Some(key) {
        assert all == items;
      } else if items == [] {
        assert all == [last] && all[1..] == [];
      } else {
        FoldLeftNext(policy.selectDuplicate, items[0], items[1..], last);
        assert all == items + [last] && all[0] == items[0] && all[1..] == items[1..] + [last];
      }
    }
  }

  lemma KeyOfMatching<E>(policy: Policy<E>, endpoint: E, key: string)
    ensures KeyOf(policy, endpoint) == Some(key) <==>
      !IsIgnored(policy, endpoint) && policy.identity(endpoint) == Some(key)
  {
  }

  /** Every non-empty identity of a valid endpoint occurs once, and none else. */
  lemma {:induction false} IdentitiesAreDistinct<E>(policy: Policy<E>, endpoints: seq<E>)
    ensures NoRepeats(Identities(policy, endpoints)) && "" !in Identities(policy, endpoints)
  {
    if endpoints != [] {
      IdentitiesAreDistinct(policy, endpoints[..|endpoints| - 1]);
    }
  }

  /** Identities stand in the order in which they first occur. */
  lemma {:induction false} IdentitiesKeepFirstPositions<E>(policy: Policy<E>, endpoints: seq<E>, i: nat, j: nat,
    a: nat, b: nat)
    requires i < j < |Identities(policy, endpoints)|
    requires IsFirst(policy, endpoints, Identities(policy, endpoints)[i], a)
    requires IsFirst(policy, endpoints, Identities(policy, endpoints)[j], b)
    ensures a < b
  {
    var n := |endpoints| - 1;
    var init, keys := endpoints[..n], Identities(policy, endpoints);
    var before := Identities(policy, init);
    IdentitiesAreDistinct(policy, endpoints);
    UnseenHasNoFold(policy, init, keys[i]);
    assert keys[i] == before[i] && before[i] in before;
    if j < |before| {
      UnseenHasNoFold(policy, init, keys[j]);
      assert keys[j] in before;
      IdentitiesKeepFirstPositions(policy, init, i, j, a, b);
    } else {
      UnseenHasNoFold(policy, init, keys[j]);
      assert a < n;
    }
  }
}
