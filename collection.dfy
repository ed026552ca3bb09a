/**
 * A player's account and nested card collection: set id -> card id -> number of copies owned.
 * A missing entry means no copy is owned.
 */
module Collection {
  import opened Catalog

  type UserId = string

  type Collection = map<SetId, map<CardId, int>>

  datatype Account = Account(packsLeft: int, packsOpened: int, collected: Collection)

  /** Most packs an account holds; also what a new account starts with. */
  const MaxPacks: int := 5

  /** The account `begin` inserts. */
  const NewAccount: Account := Account(MaxPacks, 0, map[])

  /** Every stored count is at least one. */
  ghost predicate CountsPositive(c: Collection)
  {
    forall s, id :: s in c && id in c[s] ==> c[s][id] >= 1
  }

  /** The cards of one set, empty when the set has no entry. */
  function Inner(c: Collection, s: SetId): map<CardId, int>
  {
    if s in c then c[s] else map[]
  }

  /** Copies of card `id` of set `s` owned; zero when either key is absent. */
  function Count(c: Collection, s: SetId, id: CardId): (n: int)
    ensures s in c && id in c[s] ==> n == c[s][id]
    ensures !(s in c && id in c[s]) ==> n == 0
    ensures CountsPositive(c) ==> (n >= 1 <==> s in c && id in c[s])
  {
    if id in Inner(c, s) then Inner(c, s)[id] else 0
  }

  /** One pass of the collection loop: create the set entry if needed, then add one copy. */
  function AddCard(c: Collection, card: Card): Collection
  {
    var inner := Inner(c, card.setId);
    c[card.setId := inner[card.id := if card.id in inner then inner[card.id] + 1 else 1]]
  }

  /** The collection after adding every card of `pack`, first to last. */
  function AfterPack(c: Collection, pack: seq<Card>): Collection
    decreases |pack|
  {
    if pack == [] then c else AddCard(AfterPack(c, pack[..|pack| - 1]), pack[|pack| - 1])
  }

  /** How many cards of `pack` are card `id` of set `s`. */
  function Occurrences(pack: seq<Card>, s: SetId, id: CardId): nat
    decreases |pack|
  {
    if pack == [] then 0
    else Occurrences(pack[..|pack| - 1], s, id) + (if pack[|pack| - 1].setId == s && pack[|pack| - 1].id == id then 1 else 0)
  }

  /** How many cards of `pack` belong to set `s`. */
  function InSet(pack: seq<Card>, s: SetId): nat
    decreases |pack|
  {
    if pack == [] then 0
    else InSet(pack[..|pack| - 1], s) + (if pack[|pack| - 1].setId == s then 1 else 0)
  }

  /** A card at some position of the pack occurs in it at least once. */
  lemma {:induction false} OccursAt(pack: seq<Card>, k: nat)
    requires k < |pack|
    ensures Occurrences(pack, pack[k].setId, pack[k].id) >= 1
    decreases |pack|
  {
    if k < |pack| - 1 {
      OccursAt(pack[..|pack| - 1], k);
    }
  }

  /** Two positions holding the same card make it occur at least twice. */
  lemma {:induction false} OccursTwice(pack: seq<Card>, i: nat, j: nat)
    requires i < j < |pack| && pack[i] == pack[j]
    ensures Occurrences(pack, pack[i].setId, pack[i].id) >= 2
    decreases |pack|
  {
    if j < |pack| - 1 {
      OccursTwice(pack[..|pack| - 1], i, j);
    } else {
      OccursAt(pack[..|pack| - 1], i);
    }
  }

  /** After a pack, each count is its old count plus that card's occurrences in the pack. */
  lemma {:induction false} AfterPackCount(c: Collection, pack: seq<Card>, s: SetId, id: CardId)
    ensures Count(AfterPack(c, pack), s, id) == Count(c, s, id) + Occurrences(pack, s, id)
    decreases |pack|
  {
    if pack != [] {
      AfterPackCount(c, pack[..|pack| - 1], s, id);
    }
  }

  /**
   * After a pack, an entry exists exactly when it existed before or the card is in the pack,
   * and a set key exists exactly when it existed before or some pack card is of that set.
   */
  lemma {:induction false} AfterPackEntries(c: Collection, pack: seq<Card>, s: SetId, id: CardId)
    ensures (s in AfterPack(c, pack) && id in AfterPack(c, pack)[s])
        <==> (s in c && id in c[s]) || Occurrences(pack, s, id) > 0
    ensures s in AfterPack(c, pack) <==> s in c || InSet(pack, s) > 0
    decreases |pack|
  {
    if pack != [] {
      AfterPackEntries(c, pack[..|pack| - 1], s, id);
    }
  }

  /** Adding a pack keeps every stored count at least one. */
  lemma {:induction false} AfterPackPositive(c: Collection, pack: seq<Card>)
    requires CountsPositive(c)
    ensures CountsPositive(AfterPack(c, pack))
    decreases |pack|
  {
    if pack != [] {
      var before := AfterPack(c, pack[..|pack| - 1]);
      AfterPackPositive(c, pack[..|pack| - 1]);
      forall s, id | s in AfterPack(c, pack) && id in AfterPack(c, pack)[s]
        ensures AfterPack(c, pack)[s][id] >= 1
      {
        assert Count(AfterPack(c, pack), s, id) >= Count(before, s, id);
      }
    }
  }

  /**
   * Adds the cards of a pack to a collection, one card at a time, creating a set's entry on
   * first use and starting a new card at one copy.
   */
  method ApplyPack(collected: Collection, pack: seq<Card>) returns (updated: Collection)
    ensures updated == AfterPack(collected, pack)
    ensures forall s, id :: Count(updated, s, id) == Count(collected, s, id) + Occurrences(pack, s, id)
    ensures CountsPositive(collected) ==> CountsPositive(updated)
  {
    updated := collected;
    for i := 0 to |pack|
      invariant updated == AfterPack(collected, pack[..i])
    {
      var card := pack[i];
      var inner := if card.setId in updated then updated[card.setId] else map[];
      if card.id in inner {
        inner := inner[card.id := inner[card.id] + 1];
      } else {
        inner := inner[card.id := 1];
      }
      updated := updated[card.setId := inner];
      assert pack[..i + 1][..i] == pack[..i];
    }
    assert pack[..|pack|] == pack;
    forall s, id ensures Count(updated, s, id) == Count(collected, s, id) + Occurrences(pack, s, id) {
      AfterPackCount(collected, pack, s, id);
    }
    if CountsPositive(collected) {
      AfterPackPositive(collected, pack);
    }
  }

  /**
   * The account after opening `pack`: one pack fewer, one more opened, and each card's count
   * raised by its occurrences in the pack.
   */
  function AfterOpening(a: Account, pack: seq<Card>): (r: Account)
    ensures r.packsLeft == a.packsLeft - 1 && r.packsOpened == a.packsOpened + 1
    ensures forall s, id :: Count(r.collected, s, id) == Count(a.collected, s, id) + Occurrences(pack, s, id)
  {
    forall s, id ensures Count(AfterPack(a.collected, pack), s, id) == Count(a.collected, s, id) + Occurrences(pack, s, id) {
      AfterPackCount(a.collected, pack, s, id);
    }
    Account(a.packsLeft - 1, a.packsOpened + 1, AfterPack(a.collected, pack))
  }

  /** The reveal's test for a first copy: the stored count minus one is not positive. */
  predicate IsNewCard(count: int)
  {
    count - 1 <= 0
  }

  /**
   * A revealed card is shown as new exactly when it was not owned before the pack and
   * the pack holds only one copy of it; the stored count is read after the whole pack.
   */
  lemma RevealNewIffFirstCopy(c: Collection, pack: seq<Card>, k: nat)
    requires CountsPositive(c)
    requires k < |pack|
    ensures IsNewCard(Count(AfterPack(c, pack), pack[k].setId, pack[k].id))
        <==> Count(c, pack[k].setId, pack[k].id) == 0 && Occurrences(pack, pack[k].setId, pack[k].id) == 1
  {
    AfterPackCount(c, pack, pack[k].setId, pack[k].id);
    OccursAt(pack, k);
  }

  /** A card drawn twice into an empty collection is shown with two copies on both reveals. */
  lemma DuplicateInFreshPack(pack: seq<Card>, i: nat, j: nat)
    requires i < j < |pack| && pack[i] == pack[j]
    ensures Count(AfterPack(map[], pack), pack[j].setId, pack[j].id) == Occurrences(pack, pack[j].setId, pack[j].id) >= 2
    ensures !IsNewCard(Count(AfterPack(map[], pack), pack[i].setId, pack[i].id))
    ensures !IsNewCard(Count(AfterPack(map[], pack), pack[j].setId, pack[j].id))
  {
    AfterPackCount(map[], pack, pack[j].setId, pack[j].id);
    OccursTwice(pack, i, j);
  }

  /** One refill for an account found below the cap: one more pack. */
  function Refilled(a: Account): (r: Account)
    ensures r.packsLeft > a.packsLeft <==> a.packsLeft < MaxPacks
    ensures a.packsLeft <= r.packsLeft <= a.packsLeft + 1
    ensures a.packsLeft <= MaxPacks ==> r.packsLeft <= MaxPacks
    ensures r.packsOpened == a.packsOpened && r.collected == a.collected
  {
    if a.packsLeft < MaxPacks then a.(packsLeft := a.packsLeft + 1) else a
  }
}
