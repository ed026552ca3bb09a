/**
 * The bot's state: the catalog loaded at startup, the accounts collection and the table of
 * pack-reveal sessions keyed by user id. Commands and button presses are methods on it.
 */
module Game {
  import opened Wrappers
  import opened Catalog
  import opened Collection

  /** The cards of an opened pack and the index of the next card to reveal. */
  datatype PackSession = PackSession(cards: seq<Card>, cursor: nat)

  datatype OpenOutcome =
    | DrawFailed(tier: Tier)   // the draw raised: a rolled tier has no catalog card
    | NotStarted               // no account: "You need to begin first!"
    | OutOfPacks               // "You're out of packs!"
    | Opened(pack: seq<Card>)

  datatype RevealOutcome =
    | NotYourPack              // pressed by someone other than the pack's owner
    | SessionExpired           // no session for the presser
    | RevealFailed             // the card's set is not in the catalog: the reveal raises
    | Revealed(position: nat, card: Card, setName: string, timesCollected: int, isNew: bool)
    | AllPulled                // the summary after the last card; the session is removed

  /** The set name the reveal shows: bound only for a non-empty set id found in the catalog. */
  function RevealSetName(sets: seq<CardSet>, setId: SetId): (r: Option<string>)
    ensures r.Some? <==> setId != "" && exists s :: s in sets && s.id == setId
    ensures r.Some? ==> r.value == FindSet(sets, setId).value.name
  {
    if setId == "" then None
    else match FindSet(sets, setId)
      case None => None
      case Some(s) => Some(s.name)
  }

  class Bot {
    const allCards: seq<Card>
    const allSets: seq<CardSet>
    var users: map<UserId, Account>
    var sessions: map<UserId, PackSession>

    ghost predicate AccountOk(a: Account)
    {
      0 <= a.packsLeft <= MaxPacks && a.packsOpened >= 0 && CountsPositive(a.collected)
    }

    /** Five catalog cards of a tier, a cursor within them, each card already in the collection. */
    ghost predicate SessionOk(s: PackSession, collected: Collection)
    {
      && |s.cards| == PackSize
      && s.cursor <= |s.cards|
      && forall k :: 0 <= k < |s.cards| ==>
           && s.cards[k] in allCards
           && IsTierName(s.cards[k].rarity)
           && Count(collected, s.cards[k].setId, s.cards[k].id) >= 1
    }

    /** Accounts within their bounds; every session belongs to an account and fits it. */
    ghost predicate Consistent(accounts: map<UserId, Account>, table: map<UserId, PackSession>)
    {
      && (forall u :: u in accounts ==> AccountOk(accounts[u]))
      && table.Keys <= accounts.Keys
      && (forall u :: u in table ==> SessionOk(table[u], accounts[u].collected))
    }

    ghost predicate Valid()
      reads this
    {
      Consistent(users, sessions)
    }

    /** Replacing one user's account and session by fitting ones keeps the state consistent. */
    lemma ReplaceKeepsConsistent(accounts: map<UserId, Account>, table: map<UserId, PackSession>,
                                 u: UserId, a: Account, s: PackSession)
      requires Consistent(accounts, table)
      requires AccountOk(a) && SessionOk(s, a.collected)
      ensures Consistent(accounts[u := a], table[u := s])
    {
    }

    /** Startup: the catalog snapshot is loaded; no accounts or sessions are held in memory yet. */
    constructor (cards: seq<Card>, sets: seq<CardSet>)
      ensures Valid()
      ensures allCards == cards && allSets == sets
      ensures users == map[] && sessions == map[]
    {
      allCards, allSets := cards, sets;
      users, sessions := map[], map[];
    }

    /** `begin`: creates the account only when the user has none. */
    method Begin(user: UserId) returns (created: bool)
      requires Valid()
      modifies this
      ensures Valid()
      ensures created <==> user !in old(users)
      ensures users == if created then old(users)[user := NewAccount] else old(users)
      ensures sessions == old(sessions)
    {
      created := user !in users;
      if created {
        users := users[user := NewAccount];
      }
    }

    /**
     * `open`: draws a pack first, then checks the account and its packs; on success starts a
     * reveal session and records the pack in one atomic account update.
     */
    method Open(user: UserId, rolls: seq<real>, picks: seq<nat>) returns (outcome: OpenOutcome)
      requires Valid()
      requires |rolls| == PackSize && |picks| == PackSize
      modifies this
      ensures Valid()
      ensures outcome.Opened? <==> Drawable(allCards, rolls) && user in old(users) && old(users)[user].packsLeft > 0
      ensures !Drawable(allCards, rolls) ==> outcome.DrawFailed?
      ensures Drawable(allCards, rolls) && user !in old(users) ==> outcome == NotStarted
      ensures Drawable(allCards, rolls) && user in old(users) && old(users)[user].packsLeft <= 0 ==> outcome == OutOfPacks
      ensures !outcome.Opened? ==> users == old(users) && sessions == old(sessions)
      ensures outcome.Opened? ==>
        && |outcome.pack| == PackSize
        && (forall k :: 0 <= k < PackSize ==> DrawSlot(allCards, rolls[k], picks[k]) == Some(outcome.pack[k]))
        && sessions == old(sessions)[user := PackSession(outcome.pack, 0)]
        && users == old(users)[user := AfterOpening(old(users)[user], outcome.pack)]
    {
      var drawn := SelectBoosterPack(allCards, rolls, picks);
      if drawn.Err? {
        return DrawFailed(drawn.error);
      }
      var pack := drawn.value;
      if user !in users {
        return NotStarted;
      }
      if users[user].packsLeft <= 0 {
        return OutOfPacks;
      }
      RecordOpening(user, pack);
      outcome := Opened(pack);
    }

    /**
     * Starts the user's reveal session on the pack, then records the opening: one pack fewer,
     * one more opened, and every card of the pack added to the collection.
     */
    method RecordOpening(user: UserId, pack: seq<Card>)
      requires Valid()
      requires user in users && users[user].packsLeft > 0
      requires |pack| == PackSize
      requires forall k :: 0 <= k < |pack| ==> pack[k] in allCards && IsTierName(pack[k].rarity)
      modifies this
      ensures Valid()
      ensures sessions == old(sessions)[user := PackSession(pack, 0)]
      ensures users == old(users)[user := AfterOpening(old(users)[user], pack)]
    {
      var account := users[user];
      var collected := ApplyPack(account.collected, pack);
      forall k | 0 <= k < |pack| ensures Count(collected, pack[k].setId, pack[k].id) >= 1 {
        OccursAt(pack, k);
      }
      var updated := Account(account.packsLeft - 1, account.packsOpened + 1, collected);
      assert updated == AfterOpening(account, pack);
      ReplaceKeepsConsistent(users, sessions, user, updated, PackSession(pack, 0));
      sessions := sessions[user := PackSession(pack, 0)];
      users := users[user := updated];
    }

    /**
     * A press of a pack's button. Only the pack's owner may press; the presser's session then
     * reveals the card at the cursor and advances it, or, after the last card, is removed.
     */
    method PressReveal(presser: UserId, owner: UserId) returns (outcome: RevealOutcome)
      requires Valid()
      modifies this
      ensures Valid()
      ensures users == old(users)
      ensures presser != owner ==> outcome == NotYourPack && sessions == old(sessions)
      ensures presser == owner && presser !in old(sessions) ==> outcome == SessionExpired && sessions == old(sessions)
      ensures presser == owner && presser in old(sessions) ==>
        var s := old(sessions)[presser];
        if s.cursor == |s.cards| then
          outcome == AllPulled && sessions == old(sessions) - {presser}
        else
          var card := s.cards[s.cursor];
          if RevealSetName(allSets, card.setId).None? then
            outcome == RevealFailed && sessions == old(sessions)
          else
            var count := Count(users[presser].collected, card.setId, card.id);
            && outcome == Revealed(s.cursor + 1, card, RevealSetName(allSets, card.setId).value, count, IsNewCard(count))
            && sessions == old(sessions)[presser := s.(cursor := s.cursor + 1)]
      ensures outcome.Revealed? ==> 1 <= outcome.position <= PackSize
      ensures outcome.Revealed? ==> (outcome.isNew <==> outcome.timesCollected == 1)
    {
      if presser != owner {
        return NotYourPack;
      }
      if presser !in sessions {
        return SessionExpired;
      }
      var s := sessions[presser];
      if s.cursor < |s.cards| {
        var card := s.cards[s.cursor];
        var setName := RevealSetName(allSets, card.setId);
        if setName.None? {
          return RevealFailed;
        }
        var count := Count(users[presser].collected, card.setId, card.id);
        outcome := Revealed(s.cursor + 1, card, setName.value, count, IsNewCard(count));
        sessions := sessions[presser := s.(cursor := s.cursor + 1)];
      } else {
        outcome := AllPulled;
        sessions := sessions - {presser};
      }
    }

    /** One pass of the refill loop: each account found below the cap gains one pack. */
    method RefillPass()
      requires Valid()
      modifies this
      ensures Valid()
      ensures users.Keys == old(users).Keys
      ensures forall u :: u in users ==> users[u] == Refilled(old(users)[u])
      ensures sessions == old(sessions)
    {
      var found := set u | u in users && users[u].packsLeft < MaxPacks;
      ghost var done: set<UserId> := {};
      while found != {}
        invariant found <= old(users).Keys && done <= old(users).Keys && found !! done
        invariant found + done == set u | u in old(users) && old(users)[u].packsLeft < MaxPacks
        invariant users.Keys == old(users).Keys
        invariant forall u :: u in users ==> users[u] == if u in done then Refilled(old(users)[u]) else old(users)[u]
        invariant sessions == old(sessions)
        decreases found
      {
        var u :| u in found;
        users := users[u := users[u].(packsLeft := users[u].packsLeft + 1)];
        found := found - {u};
        done := done + {u};
      }
    }
  }
}
