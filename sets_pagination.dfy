/**
 * Per-set progress browsing: the sets sorted by name, one set per page, a page index per user
 * in a module-level table, and the number of copies collected in the shown set.
 */
module SetsPagination {
  import opened Catalog
  import opened Collection
  import opened Ordering

  /** The two buttons of the set view ("prev_set" and "next_set"). */
  datatype Button = Prev | Next

  /** What a set page shows: name, copies collected, the set's size and the unit word. */
  datatype SetProgress = SetProgress(name: string, collected: int, total: int, unit: string)

  datatype SetsOutcome =
    | NoCardsCollected                                  // no account, or an empty collection
    | NotYourSets                                       // pressed by someone other than the invoker
    | Listed(sortedSets: seq<CardSet>, first: SetProgress)
    | Paged(page: nat, shown: SetProgress)
    | RenderFailed                                      // the page index is past the last set

  /** Sum of the values of a map, in no particular order. */
  ghost function SumValues(m: map<CardId, int>): int
    decreases |m|
  {
    if m == map[] then 0
    else
      var k :| k in m;
      assert |m - {k}| < |m| by { assert (m - {k}).Keys == m.Keys - {k}; }
      m[k] + SumValues(m - {k})
  }

  /** The sum can be split at any key. */
  lemma {:induction false} SumValuesRemove(m: map<CardId, int>, k: CardId)
    requires k in m
    ensures SumValues(m) == m[k] + SumValues(m - {k})
    decreases |m|
  {
    var k0 :| k0 in m && SumValues(m) == m[k0] + SumValues(m - {k0});
    if k0 != k {
      assert (m - {k0}).Keys == m.Keys - {k0};
      assert (m - {k}).Keys == m.Keys - {k};
      SumValuesRemove(m - {k0}, k);
      SumValuesRemove(m - {k}, k0);
      assert m - {k0} - {k} == m - {k} - {k0};
    }
  }

  /** Writing `v` at `k` changes the sum by `v` minus what was there. */
  lemma SumValuesUpdate(m: map<CardId, int>, k: CardId, v: int)
    ensures SumValues(m[k := v]) == SumValues(m) - (if k in m then m[k] else 0) + v
  {
    SumValuesRemove(m[k := v], k);
    if k in m {
      SumValuesRemove(m, k);
      assert m[k := v] - {k} == m - {k};
    } else {
      assert m[k := v] - {k} == m;
    }
  }

  /** With every value at least one, the sum is at least the number of keys. */
  lemma {:induction false} SumValuesAtLeastSize(m: map<CardId, int>)
    requires forall k :: k in m ==> m[k] >= 1
    ensures SumValues(m) >= |m|
    decreases |m|
  {
    if m != map[] {
      var k :| k in m;
      SumValuesRemove(m, k);
      assert (m - {k}).Keys == m.Keys - {k};
      SumValuesAtLeastSize(m - {k});
    }
  }

  /** Copies collected in set `s`: the sum of the stored counts under it, zero when absent. */
  ghost function CollectedInSet(c: Collection, s: SetId): int
  {
    SumValues(Inner(c, s))
  }

  /** A collection with some card of set `s` shows at least one copy for it. */
  lemma CollectedInSetPositive(c: Collection, s: SetId)
    requires CountsPositive(c) && Inner(c, s) != map[]
    ensures CollectedInSet(c, s) >= 1
  {
    var id :| id in Inner(c, s);
    SumValuesAtLeastSize(Inner(c, s));
  }

  /** Opening a pack raises the progress of set `s` by the number of pack cards from `s`. */
  lemma {:induction false} CollectedInSetAfterPack(c: Collection, pack: seq<Card>, s: SetId)
    ensures CollectedInSet(AfterPack(c, pack), s) == CollectedInSet(c, s) + InSet(pack, s)
    decreases |pack|
  {
    if pack != [] {
      var before := AfterPack(c, pack[..|pack| - 1]);
      var card := pack[|pack| - 1];
      CollectedInSetAfterPack(c, pack[..|pack| - 1], s);
      if card.setId == s {
        var inner := Inner(before, s);
        var v := if card.id in inner then inner[card.id] + 1 else 1;
        assert Inner(AfterPack(c, pack), s) == inner[card.id := v];
        SumValuesUpdate(inner, card.id, v);
      } else {
        assert Inner(AfterPack(c, pack), s) == Inner(before, s);
      }
    }
  }

  /** "card" for exactly one copy, "cards" otherwise. */
  function CardsWord(n: int): (w: string)
    ensures w == "card" <==> n == 1
    ensures w == "card" || w == "cards"
  {
    "card" + if n != 1 then "s" else ""
  }

  /** The progress shown for `cardSet`, summing the collection's counts under its id. */
  method RenderProgress(collected: Collection, cardSet: CardSet) returns (p: SetProgress)
    ensures p.name == cardSet.name && p.total == cardSet.totalCards
    ensures p.collected == CollectedInSet(collected, cardSet.id)
    ensures p.unit == CardsWord(CollectedInSet(collected, cardSet.id))
    ensures cardSet.id !in collected ==> p.collected == 0
  {
    var cards := if cardSet.id in collected then collected[cardSet.id] else map[];
    var total := 0;
    var rest := cards;
    while rest != map[]
      invariant total + SumValues(rest) == SumValues(cards)
      decreases |rest|
    {
      var k :| k in rest;
      SumValuesRemove(rest, k);
      assert (rest - {k}).Keys == rest.Keys - {k};
      total := total + rest[k];
      rest := rest - {k};
    }
    p := SetProgress(cardSet.name, total, cardSet.totalCards, CardsWord(total));
  }

  /** The sort key: the set's display name. */
  function SetName(s: CardSet): string
  {
    s.name
  }

  /** The page after one press: back only from past the first set, forward only before the last. */
  function SetPageAfter(page: int, b: Button, count: int): (r: int)
    ensures r < page <==> b == Prev && page > 0
    ensures r > page <==> b == Next && page < count - 1
    ensures page - 1 <= r <= page + 1
    ensures 0 <= page < count ==> 0 <= r < count
    ensures page >= 0 ==> r >= 0
  {
    if b == Prev && page > 0 then page - 1
    else if b == Next && page < count - 1 then page + 1
    else page
  }

  /** The page after a sequence of presses, first to last. */
  function SetPageAfterPresses(page: int, presses: seq<Button>, count: int): int
    decreases |presses|
  {
    if presses == [] then page else SetPageAfterPresses(SetPageAfter(page, presses[0], count), presses[1..], count)
  }

  /** From a page within the sets, no sequence of presses leaves them. */
  lemma {:induction false} SetPagesStayInRange(page: int, presses: seq<Button>, count: int)
    requires 0 <= page < count
    ensures 0 <= SetPageAfterPresses(page, presses, count) < count
    decreases |presses|
  {
    if presses != [] {
      SetPagesStayInRange(SetPageAfter(page, presses[0], count), presses[1..], count);
    }
  }

  /** `k` presses of "next" from the first page reach set `k`: every set can be shown. */
  lemma {:induction false} EverySetReachable(page: int, k: nat, count: int)
    requires 0 <= page && page + k < count
    ensures SetPageAfterPresses(page, seq(k, _ => Next), count) == page + k
    decreases k
  {
    if k > 0 {
      assert seq(k, _ => Next)[1..] == seq(k - 1, _ => Next);
      EverySetReachable(page + 1, k - 1, count);
    }
  }

  /** The module-level table of current pages, keyed by user id. */
  class SetsBrowser {
    var pageStates: map<UserId, int>

    ghost predicate Valid()
      reads this
    {
      forall u :: u in pageStates ==> pageStates[u] >= 0
    }

    constructor ()
      ensures Valid() && pageStates == map[]
    {
      pageStates := map[];
    }

    /**
     * The sets command: short-circuits without an account or collection; otherwise sorts the
     * catalog's sets by name, resets the user's page to the first and shows that set.
     */
    method HandleSets(user: UserId, users: map<UserId, Account>, allSets: seq<CardSet>)
      returns (outcome: SetsOutcome)
      requires Valid()
      modifies this
      ensures Valid()
      ensures (user !in users || users[user].collected == map[]) <==> outcome == NoCardsCollected
      ensures outcome == NoCardsCollected ==> pageStates == old(pageStates)
      ensures outcome != NoCardsCollected ==> pageStates == old(pageStates)[user := 0]
      ensures outcome.Listed? ==>
        && |outcome.sortedSets| == |allSets| > 0
        && SortedBy(outcome.sortedSets, SetName)
        && multiset(outcome.sortedSets) == multiset(allSets)
        && outcome.first == SetProgress(outcome.sortedSets[0].name,
             CollectedInSet(users[user].collected, outcome.sortedSets[0].id), outcome.sortedSets[0].totalCards,
             CardsWord(CollectedInSet(users[user].collected, outcome.sortedSets[0].id)))
      ensures user in users && users[user].collected != map[] && allSets != [] ==> outcome.Listed?
      ensures outcome == RenderFailed <==> user in users && users[user].collected != map[] && allSets == []
    {
      if user !in users || users[user].collected == map[] {
        return NoCardsCollected;
      }
      var collected := users[user].collected;
      var sortedSets := SortBy(allSets, SetName);
      pageStates := pageStates[user := 0];
      if |sortedSets| == 0 {
        return RenderFailed;
      }
      var first := RenderProgress(collected, sortedSets[0]);
      outcome := Listed(sortedSets, first);
    }

    /**
     * A press on a set view: ignored (no write) unless pressed by the view's invoker; otherwise
     * the user's page moves by one within the sets, is stored, and that set is shown.
     */
    method Press(presser: UserId, owner: UserId, b: Button, sortedSets: seq<CardSet>, collected: Collection)
      returns (outcome: SetsOutcome)
      requires Valid()
      modifies this
      ensures Valid()
      ensures presser != owner ==> outcome == NotYourSets && pageStates == old(pageStates)
      ensures presser == owner ==>
        var current := if presser in old(pageStates) then old(pageStates)[presser] else 0;
        var page := SetPageAfter(current, b, |sortedSets|);
        && pageStates == old(pageStates)[presser := page]
        && (page < |sortedSets| ==> outcome == Paged(page, SetProgress(sortedSets[page].name,
              CollectedInSet(collected, sortedSets[page].id), sortedSets[page].totalCards,
              CardsWord(CollectedInSet(collected, sortedSets[page].id)))))
        && (page >= |sortedSets| ==> outcome == RenderFailed)
      ensures presser == owner && presser in old(pageStates) && old(pageStates)[presser] < |sortedSets| ==> outcome.Paged?
    {
      var current := if presser in pageStates then pageStates[presser] else 0;
      if presser != owner {
        return NotYourSets;
      }
      current := SetPageAfter(current, b, |sortedSets|);
      pageStates := pageStates[presser := current];
      if current >= |sortedSets| {
        return RenderFailed;
      }
      var shown := RenderProgress(collected, sortedSets[current]);
      outcome := Paged(current, shown);
    }
  }
}
