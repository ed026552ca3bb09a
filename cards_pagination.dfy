/**
 * Card-list browsing: a flat list built from the nested collection, sorted by card name,
 * shown fifteen to a page, with a page index per user in a module-level table.
 */
module CardsPagination {
  import opened Wrappers
  import opened Catalog
  import opened Collection
  import opened Ordering

  /** The two buttons of the card view ("prev_card" and "next_card"). */
  datatype Button = Prev | Next

  /** One row of the list: card name, card id, set name, rarity, copies owned, image. */
  datatype CardEntry = CardEntry(name: string, id: CardId, setName: string, rarity: string, count: int, image: string)

  datatype CardsOutcome =
    | NoCards                                           // no account, or an empty collection
    | NotYourCards                                      // pressed by someone other than the invoker
    | CardsPage(cards: seq<CardEntry>, page: nat, totalPages: nat, shown: seq<CardEntry>)

  const CardsPerPage: nat := 15

  /** The divisor the "next" guard uses. */
  const NextDivisor: nat := 18

  /** Number of pages: the ceiling of `n` over the page size. */
  function TotalPages(n: nat): (r: nat)
    ensures n <= r * CardsPerPage
    ensures r == 0 <==> n == 0
    ensures r > 0 ==> (r - 1) * CardsPerPage < n
  {
    (n + CardsPerPage - 1) / CardsPerPage
  }

  /** The list slice for `page`, clamped at the end of the list as slicing does. */
  function PageSlice(cards: seq<CardEntry>, page: nat): (r: seq<CardEntry>)
    ensures |r| <= CardsPerPage
    ensures forall i :: 0 <= i < |r| ==> page * CardsPerPage + i < |cards| && r[i] == cards[page * CardsPerPage + i]
    ensures |r| == if page * CardsPerPage >= |cards| then 0
                   else if |cards| - page * CardsPerPage < CardsPerPage then |cards| - page * CardsPerPage
                   else CardsPerPage
    ensures r != [] <==> page < TotalPages(|cards|)
  {
    var lo := if page * CardsPerPage < |cards| then page * CardsPerPage else |cards|;
    var hi := if (page + 1) * CardsPerPage < |cards| then (page + 1) * CardsPerPage else |cards|;
    cards[lo..hi]
  }

  /** The page after one press: back only from past the first page, forward only below `n / 18`. */
  function CardPageAfter(page: int, b: Button, n: nat): (r: int)
    ensures r < page <==> b == Prev && page > 0
    ensures r > page <==> b == Next && page < n / NextDivisor
    ensures page - 1 <= r <= page + 1
    ensures 0 <= page <= n / NextDivisor ==> 0 <= r <= n / NextDivisor
    ensures page >= 0 ==> r >= 0
  {
    if b == Prev && page > 0 then page - 1
    else if b == Next && page < n / NextDivisor then page + 1
    else page
  }

  /** The page after a sequence of presses, first to last. */
  function CardPageAfterPresses(page: int, presses: seq<Button>, n: nat): int
    decreases |presses|
  {
    if presses == [] then page else CardPageAfterPresses(CardPageAfter(page, presses[0], n), presses[1..], n)
  }

  /** From a page at most `n / 18`, no sequence of presses goes past `n / 18` or below zero. */
  lemma {:induction false} CardPagesBounded(page: int, presses: seq<Button>, n: nat)
    requires 0 <= page <= n / NextDivisor
    ensures 0 <= CardPageAfterPresses(page, presses, n) <= n / NextDivisor
    decreases |presses|
  {
    if presses != [] {
      CardPagesBounded(CardPageAfter(page, presses[0], n), presses[1..], n);
    }
  }

  /** The "next" bound never passes the last page of a non-empty list. */
  lemma NextBoundWithinPages(n: nat)
    requires n > 0
    ensures n / NextDivisor < TotalPages(n)
  {
    var q := n / NextDivisor;
    assert q * NextDivisor <= n;
    if q > 0 {
      assert q * CardsPerPage < q * NextDivisor;
    }
    assert q * CardsPerPage < n;
  }

  /** Whatever is pressed from the first page, a non-empty list shows a non-empty page. */
  lemma ShownPageNonEmpty(cards: seq<CardEntry>, presses: seq<Button>)
    requires cards != []
    ensures 0 <= CardPageAfterPresses(0, presses, |cards|)
    ensures PageSlice(cards, CardPageAfterPresses(0, presses, |cards|)) != []
  {
    CardPagesBounded(0, presses, |cards|);
    NextBoundWithinPages(|cards|);
  }

  /** With sixteen cards "next" never leaves the first page, so the sixteenth card is never shown. */
  lemma SixteenthCardUnreachable(cards: seq<CardEntry>, presses: seq<Button>)
    requires |cards| == 16
    ensures CardPageAfterPresses(0, presses, |cards|) == 0
    ensures PageSlice(cards, CardPageAfterPresses(0, presses, |cards|)) == cards[..15]
    ensures TotalPages(|cards|) == 2
  {
    CardPagesBounded(0, presses, |cards|);
  }

  /** The set name a row shows: the catalog set's name, or the set id when the set is unknown. */
  function SetNameOrId(sets: seq<CardSet>, s: SetId): (r: string)
    ensures (forall x :: x in sets ==> x.id != s) ==> r == s
    ensures FindSet(sets, s).Some? ==> r == FindSet(sets, s).value.name
  {
    match FindSet(sets, s)
    case Some(x) => x.name
    case None => s
  }

  /** The (set id, card id) entries of the collection whose card id is in the catalog. */
  ghost function CatalogPairs(collected: Collection, allCards: seq<Card>): set<(SetId, CardId)>
  {
    set s, id | s in collected && id in collected[s] && FindCard(allCards, id).Some? :: (s, id)
  }

  /** The row for one collected entry: catalog card fields, set-name fallback, stored count. */
  function EntryFor(collected: Collection, allCards: seq<Card>, allSets: seq<CardSet>, p: (SetId, CardId)): CardEntry
    requires p in CatalogPairs(collected, allCards)
  {
    var card := FindCard(allCards, p.1).value;
    CardEntry(card.name, p.1, SetNameOrId(allSets, p.0), card.rarity, collected[p.0][p.1], card.image)
  }

  /** A sequence without repeats has as many distinct elements as positions. */
  lemma {:induction false} DistinctCardinality(s: seq<(SetId, CardId)>)
    requires forall i, j :: 0 <= i < j < |s| ==> s[i] != s[j]
    ensures |set x | x in s| == |s|
  {
    if s != [] {
      DistinctCardinality(s[1..]);
      assert (set x | x in s) == {s[0]} + (set x | x in s[1..]);
      assert s[0] !in (set x | x in s[1..]);
    }
  }

  /** Each row is built from the collected catalog entry at the same position of `origin`. */
  ghost predicate RowsOf(collected: Collection, allCards: seq<Card>, allSets: seq<CardSet>,
                         rows: seq<CardEntry>, origin: seq<(SetId, CardId)>)
  {
    && |rows| == |origin|
    && forall i :: 0 <= i < |rows| ==>
         origin[i] in CatalogPairs(collected, allCards) && rows[i] == EntryFor(collected, allCards, allSets, origin[i])
  }

  lemma RowsOfConcat(collected: Collection, allCards: seq<Card>, allSets: seq<CardSet>,
                     rows: seq<CardEntry>, origin: seq<(SetId, CardId)>,
                     more: seq<CardEntry>, moreOrigin: seq<(SetId, CardId)>)
    requires RowsOf(collected, allCards, allSets, rows, origin)
    requires RowsOf(collected, allCards, allSets, more, moreOrigin)
    ensures RowsOf(collected, allCards, allSets, rows + more, origin + moreOrigin)
  {
    forall i | 0 <= i < |rows + more|
      ensures (origin + moreOrigin)[i] in CatalogPairs(collected, allCards)
      ensures (rows + more)[i] == EntryFor(collected, allCards, allSets, (origin + moreOrigin)[i])
    {
      if i >= |rows| {
        assert (rows + more)[i] == more[i - |rows|];
        assert (origin + moreOrigin)[i] == moreOrigin[i - |rows|];
      }
    }
  }

  /**
   * What the walk over set `s` has built while `idsLeft` remain: one row per visited catalog
   * entry of `s`, none twice.
   */
  ghost predicate SetRowsSoFar(collected: Collection, allCards: seq<Card>, allSets: seq<CardSet>, s: SetId,
                               idsLeft: set<CardId>, rows: seq<CardEntry>, origin: seq<(SetId, CardId)>)
  {
    && RowsOf(collected, allCards, allSets, rows, origin)
    && (forall i :: 0 <= i < |origin| ==> origin[i].0 == s && origin[i].1 !in idsLeft)
    && (forall p :: p in CatalogPairs(collected, allCards) && p.0 == s && p.1 !in idsLeft ==> p in origin)
    && (forall i, j :: 0 <= i < j < |origin| ==> origin[i] != origin[j])
  }

  /** Visiting a card id missing from the catalog adds no row. */
  lemma SetRowsSkip(collected: Collection, allCards: seq<Card>, allSets: seq<CardSet>, s: SetId,
                    idsLeft: set<CardId>, rows: seq<CardEntry>, origin: seq<(SetId, CardId)>, id: CardId)
    requires SetRowsSoFar(collected, allCards, allSets, s, idsLeft, rows, origin)
    requires id in idsLeft && FindCard(allCards, id).None?
    ensures SetRowsSoFar(collected, allCards, allSets, s, idsLeft - {id}, rows, origin)
  {
  }

  /** Visiting a card id found in the catalog appends its row. */
  lemma SetRowsAppend(collected: Collection, allCards: seq<Card>, allSets: seq<CardSet>, s: SetId,
                      idsLeft: set<CardId>, rows: seq<CardEntry>, origin: seq<(SetId, CardId)>, id: CardId)
    requires SetRowsSoFar(collected, allCards, allSets, s, idsLeft, rows, origin)
    requires s in collected && id in idsLeft && id in collected[s] && FindCard(allCards, id).Some?
    ensures (s, id) in CatalogPairs(collected, allCards)
    ensures SetRowsSoFar(collected, allCards, allSets, s, idsLeft - {id},
                         rows + [EntryFor(collected, allCards, allSets, (s, id))], origin + [(s, id)])
  {
    var pairs := CatalogPairs(collected, allCards);
    assert (s, id) in pairs;
    var row := EntryFor(collected, allCards, allSets, (s, id));
    assert RowsOf(collected, allCards, allSets, [row], [(s, id)]);
    RowsOfConcat(collected, allCards, allSets, rows, origin, [row], [(s, id)]);
    var extended := origin + [(s, id)];
    forall i | 0 <= i < |extended| ensures extended[i].0 == s && extended[i].1 !in idsLeft - {id} {
      if i < |origin| {
        assert extended[i] == origin[i];
      }
    }
    forall p | p in pairs && p.0 == s && p.1 !in idsLeft - {id} ensures p in extended {
      if p.1 == id {
        assert extended[|origin|] == p;
      } else {
        assert p in origin;
      }
    }
    forall i, j | 0 <= i < j < |extended| ensures extended[i] != extended[j] {
      if j == |origin| {
        assert extended[i] == origin[i];
      } else {
        assert extended[i] == origin[i] && extended[j] == origin[j];
      }
    }
  }

  /**
   * The rows of one set: walks the set's card ids, skipping those missing from the catalog.
   * `origin` names the entry each row came from.
   */
  method SetRows(collected: Collection, allCards: seq<Card>, allSets: seq<CardSet>, s: SetId)
    returns (rows: seq<CardEntry>, ghost origin: seq<(SetId, CardId)>)
    requires s in collected
    ensures RowsOf(collected, allCards, allSets, rows, origin)
    ensures forall i :: 0 <= i < |origin| ==> origin[i].0 == s
    ensures forall p :: p in CatalogPairs(collected, allCards) && p.0 == s ==> p in origin
    ensures forall i, j :: 0 <= i < j < |origin| ==> origin[i] != origin[j]
  {
    var setName := SetNameOrId(allSets, s);
    var cards := collected[s];
    var idsLeft := cards.Keys;
    rows, origin := [], [];
    while idsLeft != {}
      invariant idsLeft <= cards.Keys
      invariant SetRowsSoFar(collected, allCards, allSets, s, idsLeft, rows, origin)
      decreases idsLeft
    {
      var id :| id in idsLeft;
      var card := FindCard(allCards, id);
      if card.Some? {
        SetRowsAppend(collected, allCards, allSets, s, idsLeft, rows, origin, id);
        rows := rows + [CardEntry(card.value.name, id, setName, card.value.rarity, cards[id], card.value.image)];
        origin := origin + [(s, id)];
      } else {
        SetRowsSkip(collected, allCards, allSets, s, idsLeft, rows, origin, id);
      }
      idsLeft := idsLeft - {id};
    }
  }

  /** What the walk over the collection has built while `setsLeft` remain. */
  ghost predicate ListSoFar(collected: Collection, allCards: seq<Card>, allSets: seq<CardSet>,
                            setsLeft: set<SetId>, rows: seq<CardEntry>, origin: seq<(SetId, CardId)>)
  {
    && RowsOf(collected, allCards, allSets, rows, origin)
    && (forall i :: 0 <= i < |origin| ==> origin[i].0 !in setsLeft)
    && (forall p :: p in CatalogPairs(collected, allCards) && p.0 !in setsLeft ==> p in origin)
    && (forall i, j :: 0 <= i < j < |origin| ==> origin[i] != origin[j])
  }

  /** Appending the rows of a set not yet visited keeps what the walk has built. */
  lemma ListAppendSet(collected: Collection, allCards: seq<Card>, allSets: seq<CardSet>,
                      setsLeft: set<SetId>, rows: seq<CardEntry>, origin: seq<(SetId, CardId)>,
                      s: SetId, more: seq<CardEntry>, moreOrigin: seq<(SetId, CardId)>)
    requires ListSoFar(collected, allCards, allSets, setsLeft, rows, origin)
    requires s in setsLeft
    requires RowsOf(collected, allCards, allSets, more, moreOrigin)
    requires forall i :: 0 <= i < |moreOrigin| ==> moreOrigin[i].0 == s
    requires forall p :: p in CatalogPairs(collected, allCards) && p.0 == s ==> p in moreOrigin
    requires forall i, j :: 0 <= i < j < |moreOrigin| ==> moreOrigin[i] != moreOrigin[j]
    ensures ListSoFar(collected, allCards, allSets, setsLeft - {s}, rows + more, origin + moreOrigin)
  {
    RowsOfConcat(collected, allCards, allSets, rows, origin, more, moreOrigin);
    var joined := origin + moreOrigin;
    forall i | 0 <= i < |joined| ensures joined[i].0 !in setsLeft - {s} {
      if i < |origin| {
        assert joined[i] == origin[i];
      } else {
        assert joined[i] == moreOrigin[i - |origin|];
      }
    }
    forall p | p in CatalogPairs(collected, allCards) && p.0 !in setsLeft - {s} ensures p in joined {
      if p.0 == s {
        var k :| 0 <= k < |moreOrigin| && moreOrigin[k] == p;
        assert joined[|origin| + k] == p;
      } else {
        var k :| 0 <= k < |origin| && origin[k] == p;
        assert joined[k] == p;
      }
    }
    forall i, j | 0 <= i < j < |joined| ensures joined[i] != joined[j] {
      if j < |origin| {
        assert joined[i] == origin[i] && joined[j] == origin[j];
      } else if i < |origin| {
        assert joined[i] == origin[i] && joined[j] == moreOrigin[j - |origin|];
      } else {
        assert joined[i] == moreOrigin[i - |origin|] && joined[j] == moreOrigin[j - |origin|];
      }
    }
  }

  /**
   * Builds the rows by walking the collection set by set and card by card, skipping card ids
   * missing from the catalog: one row per collected entry whose card is in the catalog.
   * `origin` names the entry each row came from.
   */
  method BuildCardsList(collected: Collection, allCards: seq<Card>, allSets: seq<CardSet>)
    returns (rows: seq<CardEntry>, ghost origin: seq<(SetId, CardId)>)
    ensures |rows| == |origin| == |CatalogPairs(collected, allCards)|
    ensures forall i :: 0 <= i < |rows| ==>
      origin[i] in CatalogPairs(collected, allCards) && rows[i] == EntryFor(collected, allCards, allSets, origin[i])
    ensures forall p :: p in CatalogPairs(collected, allCards) ==> p in origin
    ensures forall i, j :: 0 <= i < j < |origin| ==> origin[i] != origin[j]
  {
    rows, origin := [], [];
    var setsLeft := collected.Keys;
    while setsLeft != {}
      invariant setsLeft <= collected.Keys
      invariant ListSoFar(collected, allCards, allSets, setsLeft, rows, origin)
      decreases setsLeft
    {
      var s :| s in setsLeft;
      var more, moreOrigin := SetRows(collected, allCards, allSets, s);
      ListAppendSet(collected, allCards, allSets, setsLeft, rows, origin, s, more, moreOrigin);
      rows, origin := rows + more, origin + moreOrigin;
      setsLeft := setsLeft - {s};
    }
    ghost var pairs := CatalogPairs(collected, allCards);
    assert (set x | x in origin) == pairs;
    DistinctCardinality(origin);
  }

  /** The rows built from the entries of `origin`, position by position. */
  ghost function EntriesOf(collected: Collection, allCards: seq<Card>, allSets: seq<CardSet>,
                           origin: seq<(SetId, CardId)>): seq<CardEntry>
    requires forall i :: 0 <= i < |origin| ==> origin[i] in CatalogPairs(collected, allCards)
  {
    seq(|origin|, i requires 0 <= i < |origin| => EntryFor(collected, allCards, allSets, origin[i]))
  }

  /**
   * `cards` holds one row per collected catalog entry: `origin` lists every entry exactly once,
   * and `cards` is, in some order, the rows built from those entries, each as often as it arises.
   */
  ghost predicate OneRowPerEntry(collected: Collection, allCards: seq<Card>, allSets: seq<CardSet>,
                                 cards: seq<CardEntry>, origin: seq<(SetId, CardId)>)
  {
    && (forall i :: 0 <= i < |origin| ==> origin[i] in CatalogPairs(collected, allCards))
    && (forall p :: p in CatalogPairs(collected, allCards) ==> p in origin)
    && (forall i, j :: 0 <= i < j < |origin| ==> origin[i] != origin[j])
    && multiset(cards) == multiset(EntriesOf(collected, allCards, allSets, origin))
  }

  /** Sorting the rows built one per entry keeps one row per entry. */
  lemma SortedRowsCoverEntries(collected: Collection, allCards: seq<Card>, allSets: seq<CardSet>,
                               rows: seq<CardEntry>, origin: seq<(SetId, CardId)>, sorted: seq<CardEntry>)
    requires |rows| == |origin|
    requires forall i :: 0 <= i < |rows| ==>
      origin[i] in CatalogPairs(collected, allCards) && rows[i] == EntryFor(collected, allCards, allSets, origin[i])
    requires forall p :: p in CatalogPairs(collected, allCards) ==> p in origin
    requires forall i, j :: 0 <= i < j < |origin| ==> origin[i] != origin[j]
    requires multiset(sorted) == multiset(rows)
    ensures OneRowPerEntry(collected, allCards, allSets, sorted, origin)
  {
    assert rows == EntriesOf(collected, allCards, allSets, origin);
  }

  /**
   * One row per entry means as many rows as entries, every entry's row present and every row
   * some entry's.
   */
  lemma OneRowPerEntryCovers(collected: Collection, allCards: seq<Card>, allSets: seq<CardSet>,
                             cards: seq<CardEntry>, origin: seq<(SetId, CardId)>)
    requires OneRowPerEntry(collected, allCards, allSets, cards, origin)
    ensures |cards| == |CatalogPairs(collected, allCards)|
    ensures forall p :: p in CatalogPairs(collected, allCards) ==> EntryFor(collected, allCards, allSets, p) in cards
    ensures forall e :: e in cards ==>
      exists p :: p in CatalogPairs(collected, allCards) && e == EntryFor(collected, allCards, allSets, p)
  {
    OneRowPerEntryLength(collected, allCards, allSets, cards, origin);
    forall p | p in CatalogPairs(collected, allCards) ensures EntryFor(collected, allCards, allSets, p) in cards {
      EntryRowListed(collected, allCards, allSets, cards, origin, p);
    }
    forall e | e in cards
      ensures exists p :: p in CatalogPairs(collected, allCards) && e == EntryFor(collected, allCards, allSets, p)
    {
      ListedRowHasEntry(collected, allCards, allSets, cards, origin, e);
    }
  }

  lemma EntryRowListed(collected: Collection, allCards: seq<Card>, allSets: seq<CardSet>,
                       cards: seq<CardEntry>, origin: seq<(SetId, CardId)>, p: (SetId, CardId))
    requires OneRowPerEntry(collected, allCards, allSets, cards, origin)
    requires p in CatalogPairs(collected, allCards)
    ensures EntryFor(collected, allCards, allSets, p) in cards
  {
    ghost var built := EntriesOf(collected, allCards, allSets, origin);
    var i :| 0 <= i < |origin| && origin[i] == p;
    assert built[i] in multiset(built);
  }

  lemma ListedRowHasEntry(collected: Collection, allCards: seq<Card>, allSets: seq<CardSet>,
                          cards: seq<CardEntry>, origin: seq<(SetId, CardId)>, e: CardEntry)
    requires OneRowPerEntry(collected, allCards, allSets, cards, origin)
    requires e in cards
    ensures exists p :: p in CatalogPairs(collected, allCards) && e == EntryFor(collected, allCards, allSets, p)
  {
    ghost var built := EntriesOf(collected, allCards, allSets, origin);
    assert e in multiset(cards);
    var i :| 0 <= i < |built| && built[i] == e;
    assert origin[i] in CatalogPairs(collected, allCards);
  }

  /** One row per entry: as many rows as entries. */
  lemma OneRowPerEntryLength(collected: Collection, allCards: seq<Card>, allSets: seq<CardSet>,
                             cards: seq<CardEntry>, origin: seq<(SetId, CardId)>)
    requires OneRowPerEntry(collected, allCards, allSets, cards, origin)
    ensures |cards| == |origin| == |CatalogPairs(collected, allCards)|
  {
    assert |cards| == |multiset(cards)| == |EntriesOf(collected, allCards, allSets, origin)|;
    assert (set x | x in origin) == CatalogPairs(collected, allCards);
    DistinctCardinality(origin);
  }

  /** Two distinct entries that build equal rows leave that row in the list at least twice. */
  lemma EqualRowsListedTwice(collected: Collection, allCards: seq<Card>, allSets: seq<CardSet>,
                             cards: seq<CardEntry>, origin: seq<(SetId, CardId)>, p: (SetId, CardId), q: (SetId, CardId))
    requires OneRowPerEntry(collected, allCards, allSets, cards, origin)
    requires p in CatalogPairs(collected, allCards) && q in CatalogPairs(collected, allCards) && p != q
    requires EntryFor(collected, allCards, allSets, p) == EntryFor(collected, allCards, allSets, q)
    ensures multiset(cards)[EntryFor(collected, allCards, allSets, p)] >= 2
  {
    ghost var built := EntriesOf(collected, allCards, allSets, origin);
    var i :| 0 <= i < |origin| && origin[i] == p;
    var j :| 0 <= j < |origin| && origin[j] == q;
    RepeatedValueCountedTwice(built, i, j);
  }

  /** A value at two positions of a sequence occurs in it at least twice. */
  lemma RepeatedValueCountedTwice(s: seq<CardEntry>, i: nat, j: nat)
    requires i < |s| && j < |s| && i != j && s[i] == s[j]
    ensures multiset(s)[s[i]] >= 2
  {
    var lo, hi := if i < j then i else j, if i < j then j else i;
    assert s == s[..hi] + s[hi..];
    assert s[..hi][lo] == s[i];
    assert s[hi..][0] == s[i];
  }

  /** The sort key: the card's name. */
  function EntryName(e: CardEntry): string
  {
    e.name
  }

  /** The module-level table of current pages, keyed by user id. */
  class CardsBrowser {
    var pageStates: map<UserId, int>

    ghost predicate Valid()
      reads this
    {
      forall u :: u in pageStates ==> pageStates[u] >= 0
    }

    constructor ()
      ensures Valid() && pageStates == map[]
    {
      pageStates := map[];
    }

    /**
     * The card-list command: short-circuits without an account or collection; otherwise builds
     * the rows, sorts them by card name, resets the user's page to the first and shows it.
     */
    method HandleCards(user: UserId, users: map<UserId, Account>, allCards: seq<Card>, allSets: seq<CardSet>)
      returns (outcome: CardsOutcome, ghost origin: seq<(SetId, CardId)>)
      requires Valid()
      modifies this
      ensures Valid()
      ensures (user !in users || users[user].collected == map[]) <==> outcome == NoCards
      ensures outcome == NoCards ==> pageStates == old(pageStates)
      ensures outcome != NoCards ==>
        && pageStates == old(pageStates)[user := 0]
        && outcome.CardsPage?
        && outcome.page == 0
        && outcome.totalPages == TotalPages(|outcome.cards|)
        && outcome.shown == PageSlice(outcome.cards, 0)
        && SortedBy(outcome.cards, EntryName)
        && OneRowPerEntry(users[user].collected, allCards, allSets, outcome.cards, origin)
    {
      if user !in users || users[user].collected == map[] {
        return NoCards, [];
      }
      var collected := users[user].collected;
      var rows;
      rows, origin := BuildCardsList(collected, allCards, allSets);
      var sorted := SortBy(rows, EntryName);
      pageStates := pageStates[user := 0];
      SortedRowsCoverEntries(collected, allCards, allSets, rows, origin, sorted);
      outcome := CardsPage(sorted, 0, TotalPages(|sorted|), PageSlice(sorted, 0));
    }

    /**
     * A press on a card view: ignored (no write) unless pressed by the view's invoker; otherwise
     * the user's page moves by one under the `n / 18` bound, is stored, and that slice is shown.
     */
    method Press(presser: UserId, owner: UserId, b: Button, cards: seq<CardEntry>) returns (outcome: CardsOutcome)
      requires Valid()
      modifies this
      ensures Valid()
      ensures presser != owner ==> outcome == NotYourCards && pageStates == old(pageStates)
      ensures presser == owner ==>
        var current := if presser in old(pageStates) then old(pageStates)[presser] else 0;
        var page := CardPageAfter(current, b, |cards|);
        && page >= 0
        && pageStates == old(pageStates)[presser := page]
        && outcome == CardsPage(cards, page, TotalPages(|cards|), PageSlice(cards, page))
    {
      var current := if presser in pageStates then pageStates[presser] else 0;
      if presser != owner {
        return NotYourCards;
      }
      current := CardPageAfter(current, b, |cards|);
      pageStates := pageStates[presser := current];
      outcome := CardsPage(cards, current, TotalPages(|cards|), PageSlice(cards, current));
    }
  }
}
