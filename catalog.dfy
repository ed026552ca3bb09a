/**
 * The card catalog loaded at startup and the booster-pack draw: a rarity tier is rolled
 * by walking cumulative thresholds, then one card of that tier is chosen.
 * The random sources become inputs: a roll per slot and a choice index per slot.
 */
module Catalog {
  import opened Wrappers

  type CardId = string
  type SetId = string

  datatype Card = Card(id: CardId, name: string, rarity: string, setId: SetId, image: string)

  datatype CardSet = CardSet(id: SetId, name: string, image: string, totalCards: int)

  /** The five rarity tiers, in the order the roll walks them. */
  datatype Tier = Common | Uncommon | Rare | RareHolo | RareSecret

  /** Number of cards in a booster pack. */
  const PackSize: nat := 5

  /** The catalog's spelling of each tier. */
  function TierName(t: Tier): string
  {
    match t
    case Common => "Common"
    case Uncommon => "Uncommon"
    case Rare => "Rare"
    case RareHolo => "Rare Holo"
    case RareSecret => "Rare Secret"
  }

  predicate IsTierName(r: string)
  {
    r == TierName(Common) || r == TierName(Uncommon) || r == TierName(Rare)
    || r == TierName(RareHolo) || r == TierName(RareSecret)
  }

  /** Position of a tier in the walk. */
  function Rank(t: Tier): nat
  {
    match t
    case Common => 0
    case Uncommon => 1
    case Rare => 2
    case RareHolo => 3
    case RareSecret => 4
  }

  /** The configured probability of each tier, as exact reals. */
  function Probability(t: Tier): real
  {
    match t
    case Common => 0.70
    case Uncommon => 0.20
    case Rare => 0.08
    case RareHolo => 0.015
    case RareSecret => 0.005
  }

  /** Sum of the probabilities of `t` and every tier before it. */
  function Cumulative(t: Tier): real
    decreases Rank(t)
  {
    match t
    case Common => Probability(Common)
    case Uncommon => Cumulative(Common) + Probability(Uncommon)
    case Rare => Cumulative(Uncommon) + Probability(Rare)
    case RareHolo => Cumulative(Rare) + Probability(RareHolo)
    case RareSecret => Cumulative(RareHolo) + Probability(RareSecret)
  }

  /**
   * The first tier, in walk order, whose cumulative probability exceeds the roll;
   * Rare Secret when none of the first four does.
   */
  function RollRarity(roll: real): (t: Tier)
    ensures t != RareSecret ==> roll < Cumulative(t)
    ensures forall u: Tier :: Rank(u) < Rank(t) ==> Cumulative(u) <= roll
  {
    if roll < Probability(Common) then Common
    else if roll < Probability(Common) + Probability(Uncommon) then Uncommon
    else if roll < Probability(Common) + Probability(Uncommon) + Probability(Rare) then Rare
    else if roll < Probability(Common) + Probability(Uncommon) + Probability(Rare) + Probability(RareHolo) then RareHolo
    else RareSecret
  }

  /** The probabilities sum to exactly one. */
  lemma ProbabilitiesSumToOne()
    ensures Cumulative(RareSecret) == 1.0
  {
  }

  /** A larger roll never yields a tier earlier in the walk. */
  lemma RollRarityMonotone(a: real, b: real)
    requires a <= b
    ensures Rank(RollRarity(a)) <= Rank(RollRarity(b))
  {
  }

  /**
   * For a roll in [0, 1), each tier is drawn on an interval of width equal to its
   * configured probability.
   */
  lemma RollRarityBand(roll: real, t: Tier)
    requires 0.0 <= roll < 1.0
    ensures RollRarity(roll) == t <==> Cumulative(t) - Probability(t) <= roll < Cumulative(t)
  {
  }

  /** `b` contains the elements of `a` in the same relative order. */
  predicate Subsequence(a: seq<Card>, b: seq<Card>)
  {
    a == [] || (b != [] && ((a[0] == b[0] && Subsequence(a[1..], b[1..])) || Subsequence(a, b[1..])))
  }

  /** The catalog cards whose rarity is `rarity`, in catalog order. */
  function CardsOfRarity(catalog: seq<Card>, rarity: string): seq<Card>
  {
    if catalog == [] then []
    else if catalog[0].rarity == rarity then [catalog[0]] + CardsOfRarity(catalog[1..], rarity)
    else CardsOfRarity(catalog[1..], rarity)
  }

  /** The filter keeps only cards of that rarity. */
  lemma {:induction false} CardsOfRarityOnlyThat(catalog: seq<Card>, rarity: string)
    ensures forall c :: c in CardsOfRarity(catalog, rarity) ==> c.rarity == rarity
  {
    if catalog != [] {
      CardsOfRarityOnlyThat(catalog[1..], rarity);
    }
  }

  /** The filter keeps each card of that rarity as often as the catalog holds it. */
  lemma {:induction false} CardsOfRarityCounts(catalog: seq<Card>, rarity: string)
    ensures forall c :: multiset(CardsOfRarity(catalog, rarity))[c] == if c.rarity == rarity then multiset(catalog)[c] else 0
  {
    if catalog != [] {
      CardsOfRarityCounts(catalog[1..], rarity);
      assert catalog == [catalog[0]] + catalog[1..];
      assert multiset(catalog) == multiset{catalog[0]} + multiset(catalog[1..]);
    }
  }

  /** The filter keeps catalog order. */
  lemma {:induction false} CardsOfRarityInOrder(catalog: seq<Card>, rarity: string)
    ensures Subsequence(CardsOfRarity(catalog, rarity), catalog)
  {
    if catalog != [] {
      CardsOfRarityInOrder(catalog[1..], rarity);
    }
  }

  /**
   * The filter keeps exactly the cards of that rarity, each as often as the catalog holds it,
   * in catalog order.
   */
  lemma CardsOfRarityExact(catalog: seq<Card>, rarity: string)
    ensures forall c :: c in CardsOfRarity(catalog, rarity) ==> c.rarity == rarity
    ensures forall c :: multiset(CardsOfRarity(catalog, rarity))[c] == if c.rarity == rarity then multiset(catalog)[c] else 0
    ensures Subsequence(CardsOfRarity(catalog, rarity), catalog)
  {
    CardsOfRarityOnlyThat(catalog, rarity);
    CardsOfRarityCounts(catalog, rarity);
    CardsOfRarityInOrder(catalog, rarity);
  }

  /** A tier has candidates exactly when some catalog card carries its name. */
  lemma CardsOfRarityEmpty(catalog: seq<Card>, rarity: string)
    ensures CardsOfRarity(catalog, rarity) == [] <==> forall c :: c in catalog ==> c.rarity != rarity
  {
    var r := CardsOfRarity(catalog, rarity);
    CardsOfRarityExact(catalog, rarity);
    if r == [] {
      forall c | c in catalog ensures c.rarity != rarity {
        assert multiset(catalog)[c] > 0;
        assert multiset(r)[c] == 0;
      }
    } else {
      assert r[0] in multiset(r);
    }
  }

  /**
   * One slot of a pack: the tier for `roll`, then the candidate at `pick` reduced modulo
   * the number of candidates; None when the tier has no catalog card.
   */
  function DrawSlot(catalog: seq<Card>, roll: real, pick: nat): Option<Card>
  {
    var candidates := CardsOfRarity(catalog, TierName(RollRarity(roll)));
    if candidates == [] then None else Some(candidates[pick % |candidates|])
  }

  /**
   * A slot fails exactly when no catalog card has the rolled tier's name; otherwise it yields
   * a catalog card of that tier.
   */
  lemma DrawSlotSpec(catalog: seq<Card>, roll: real, pick: nat)
    ensures DrawSlot(catalog, roll, pick).None? <==> forall c :: c in catalog ==> c.rarity != TierName(RollRarity(roll))
    ensures DrawSlot(catalog, roll, pick).Some? ==>
      DrawSlot(catalog, roll, pick).value in catalog && DrawSlot(catalog, roll, pick).value.rarity == TierName(RollRarity(roll))
  {
    var candidates := CardsOfRarity(catalog, TierName(RollRarity(roll)));
    CardsOfRarityEmpty(catalog, TierName(RollRarity(roll)));
    CardsOfRarityExact(catalog, TierName(RollRarity(roll)));
    if candidates != [] {
      var c := candidates[pick % |candidates|];
      assert multiset(candidates)[c] > 0;
      assert c in catalog && c.rarity == TierName(RollRarity(roll));
    }
  }

  /** Every rolled tier has at least one catalog card. */
  predicate Drawable(catalog: seq<Card>, rolls: seq<real>)
  {
    forall k :: 0 <= k < |rolls| ==> CardsOfRarity(catalog, TierName(RollRarity(rolls[k]))) != []
  }

  /**
   * Draws five cards, slot by slot; fails with the tier of the first slot whose tier
   * has no catalog card, as choosing from an empty list raises.
   */
  method SelectBoosterPack(catalog: seq<Card>, rolls: seq<real>, picks: seq<nat>)
    returns (r: Result<seq<Card>, Tier>)
    requires |rolls| == PackSize && |picks| == PackSize
    ensures r.Ok? <==> Drawable(catalog, rolls)
    ensures r.Ok? ==> |r.value| == PackSize
    ensures r.Ok? ==> forall k :: 0 <= k < PackSize ==> DrawSlot(catalog, rolls[k], picks[k]) == Some(r.value[k])
    ensures r.Ok? ==> forall k :: 0 <= k < PackSize ==>
      r.value[k] in catalog && r.value[k].rarity == TierName(RollRarity(rolls[k]))
    ensures r.Err? ==> (exists k :: 0 <= k < PackSize && DrawSlot(catalog, rolls[k], picks[k]).None?
                          && r.error == RollRarity(rolls[k])
                          && forall j :: 0 <= j < k ==> DrawSlot(catalog, rolls[j], picks[j]).Some?)
  {
    var pack: seq<Card> := [];
    for k := 0 to PackSize
      invariant |pack| == k
      invariant forall j :: 0 <= j < k ==> DrawSlot(catalog, rolls[j], picks[j]) == Some(pack[j])
    {
      var tier := RollRarity(rolls[k]);
      var candidates := CardsOfRarity(catalog, TierName(tier));
      if candidates == [] {
        return Err(tier);
      }
      var card := candidates[picks[k] % |candidates|];
      assert DrawSlot(catalog, rolls[k], picks[k]) == Some(card);
      pack := pack + [card];
    }
    forall k | 0 <= k < PackSize
      ensures pack[k] in catalog && pack[k].rarity == TierName(RollRarity(rolls[k]))
    {
      DrawSlotSpec(catalog, rolls[k], picks[k]);
    }
    r := Ok(pack);
  }

  /** The first set in the catalog with the given id (a generator with a `None` default). */
  function FindSet(sets: seq<CardSet>, id: SetId): (r: Option<CardSet>)
    ensures r.None? <==> forall s :: s in sets ==> s.id != id
    ensures r.Some? ==> (exists i :: 0 <= i < |sets| && sets[i] == r.value && r.value.id == id
                           && forall j :: 0 <= j < i ==> sets[j].id != id)
  {
    if sets == [] then None
    else if sets[0].id == id then Some(sets[0])
    else
      var r := FindSet(sets[1..], id);
      assert forall s :: s in sets[1..] ==> s in sets;
      assert r.Some? ==> exists i :: 0 <= i < |sets| && sets[i] == r.value && (forall j :: 0 <= j < i ==> sets[j].id != id) by {
        if r.Some? {
          var i :| 0 <= i < |sets[1..]| && sets[1..][i] == r.value && forall j :: 0 <= j < i ==> sets[1..][j].id != id;
          assert sets[i + 1] == r.value;
        }
      }
      r
  }

  /** The first catalog card with the given id. */
  function FindCard(cards: seq<Card>, id: CardId): (r: Option<Card>)
    ensures r.None? <==> forall c :: c in cards ==> c.id != id
    ensures r.Some? ==> (exists i :: 0 <= i < |cards| && cards[i] == r.value && r.value.id == id
                           && forall j :: 0 <= j < i ==> cards[j].id != id)
  {
    if cards == [] then None
    else if cards[0].id == id then Some(cards[0])
    else
      var r := FindCard(cards[1..], id);
      assert forall c :: c in cards[1..] ==> c in cards;
      assert r.Some? ==> exists i :: 0 <= i < |cards| && cards[i] == r.value && (forall j :: 0 <= j < i ==> cards[j].id != id) by {
        if r.Some? {
          var i :| 0 <= i < |cards[1..]| && cards[1..][i] == r.value && forall j :: 0 <= j < i ==> cards[1..][j].id != id;
          assert cards[i + 1] == r.value;
        }
      }
      r
  }
}
