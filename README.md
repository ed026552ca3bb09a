# Booster-pack card game bot: a Dafny model of its bookkeeping

This project models the logic of a chat bot for a collectible-card game. Players redeem
booster packs of five cards. Each card's rarity tier is drawn from a fixed distribution.
Players keep a per-set collection of card counts and browse it page by page. What is left
once the chat-platform rendering, the document store and the timer are taken away is
modelled here:

- **Catalog and draw** (`catalog.dfy`, module `Catalog`). The five tiers are Common,
  Uncommon, Rare, Rare Holo and Rare Secret, with probabilities 0.70, 0.20, 0.08, 0.015 and
  0.005. The model uses exact reals for them.
  - The rarity roll walks the cumulative thresholds in that order.
  - The rarity filter returns the catalog cards of a tier.
  - The five-slot pack draw fails when a rolled tier has no cards.
  - The random roll and the random choice are inputs.
- **Accounts and collections** (`collection.dfy`, module `Collection`). A collection maps a
  set id to a map from card id to copies owned.
  - Adding a pack to a collection is a function (`AfterPack`) and a loop (`ApplyPack`).
  - Opening a pack updates the account (`AfterOpening`).
  - A reveal classifies a card as new or repeat.
  - A refill raises one account by one pack.
- **The bot** (`game.dfy`, class `Game.Bot`). The catalog is read-only after startup. The
  accounts collection and the pack-reveal session table are maps the methods reassign.
  - `begin` creates an account.
  - `open` draws a pack, then checks the account and its packs. It starts a session and
    records the pack.
  - A reveal press checks the owner and the session. It reveals the card at the cursor and
    advances the cursor, or removes the session after the fifth card.
  - One pass of the refill loop is a method.
  - `Bot.Valid` is the invariant every method keeps:
    - packs left stays within [0, 5];
    - every session belongs to an account;
    - every session holds five catalog cards of a known tier;
    - the cursor never passes 5;
    - every session card is already counted in the collection.
- **Set progress** (`sets_pagination.dfy`, class `SetsPagination.SetsBrowser`). The sets
  are sorted by name. A per-user page index moves one set at a time. The collected count of
  the shown set is the sum of the stored counts under that set's id. A press renders from the
  account record read when the set view was opened (sets_pagination.py:88-89), so progress
  shown after a later `open` is stale; `SetsBrowser.Press` takes that captured collection as
  its argument.
- **Card list** (`cards_pagination.dfy`, class `CardsPagination.CardsBrowser`).
  - There is one row per collected entry whose card is in the catalog. The rows are sorted
    by card name.
  - A page holds fifteen rows, and the page count is the ceiling of the row count over 15.
  - "next" only advances while the page is below `len // 18`, exactly as written. With 16
    cards the second page, which holds the 16th card, can never be shown
    (`SixteenthCardUnreachable`).
- `ordering.dfy` (module `Ordering`) holds Python's string order and a stable insertion sort.
  `wrappers.dfy` holds `Option` and `Result`.

The randomness, storage and rendering boundaries become parameters:

- each slot's `random.random()` is a real `roll`;
- each slot's `random.choice` is a natural `pick`, reduced modulo the number of candidates;
- `users_col` is a map from user id to account, and the two writes of `open` are one
  atomic update;
- the catalog is the constructor's arguments.

Behaviour of the program worth knowing:

- A pack has a single "Next Card" button, so cards are revealed in draw order only. After
  the fifth card the same button shows the summary and ends the session.
- `open` draws the pack before it looks up the account (main.py:112). A tier with no
  catalog card therefore fails the command even for a user without an account.
- A reveal shows "New Card!" when the stored count minus one is not positive. With the
  bot's invariant this is exactly "the stored count is 1".
- The card list's "next" bound is `len // 18`, which can stop short of the last page
  (with 16 rows, for example).
- A reveal whose card has an empty or unknown set id fails before the cursor moves. The
  set name is never bound in that case (main.py:205-221).
- The set view fails when there are no sets at all. It indexes the first sorted set after
  writing the page (sets_pagination.py:78, sets_pagination.py:11).

## Model

| member | source | states |
|---|---|---|
| `Catalog.RollRarity` | main.py:40-51 | the tier is the first, in the order Common, Uncommon, Rare, Rare Holo, Rare Secret, whose cumulative probability exceeds the roll; every earlier tier's cumulative sum is at most the roll; Rare Secret is the fallback |
| `Catalog.RollRarityMonotone` | main.py:42-51 | a larger roll never gives a tier earlier in the order |
| `Catalog.RollRarityBand` | main.py:29-51 | for a roll in [0, 1) each tier is drawn exactly on an interval whose width is its configured probability |
| `Catalog.ProbabilitiesSumToOne` | main.py:29-35 | the five probabilities sum to exactly 1 |
| `Catalog.CardsOfRarityExact` | main.py:37-38 | the result holds exactly the catalog cards of that rarity, with their multiplicities, in catalog order (a subsequence) |
| `Catalog.CardsOfRarityEmpty` | main.py:37-38 | the filtered list is empty exactly when no catalog card has that rarity |
| `Catalog.DrawSlotSpec` | main.py:57-59 | a slot fails exactly when no catalog card has the rolled tier; otherwise it yields a catalog card of that tier |
| `Catalog.SelectBoosterPack` | main.py:53-62 | succeeds exactly when every rolled tier has catalog cards, and then returns 5 cards, each the slot's draw and a catalog card of the slot's tier; otherwise fails with the tier of the first empty slot |
| `Catalog.FindSet` | main.py:208 | returns the first catalog set with the id, or nothing exactly when no set has it |
| `Catalog.FindCard` | cards_pagination.py:60 | returns the first catalog card with the id, or nothing exactly when no card has it |
| `Ordering.SortBy` | sets_pagination.py:75 | the result is a permutation of the input ordered by the key under Python's string order |
| `Ordering.SortedByOrdersAllPairs` | cards_pagination.py:64 | a list sorted between neighbours is ordered between any two positions |
| `Collection.Count` | main.py:64-68 | a present entry counts its stored value; an absent set or card counts 0; in a collection of positive counts the count is at least 1 exactly when the entry exists |
| `Collection.AfterPackCount` | main.py:161-171 | after a pack each (set, card) count is its old count (0 if absent) plus its occurrences in the pack |
| `Collection.AfterPackEntries` | main.py:161-171 | after a pack an entry exists exactly when it existed or the card is in the pack; a set key exists exactly when it existed or a pack card is of that set |
| `Collection.AfterPackPositive` | main.py:165-171 | adding a pack keeps every stored count at least 1 |
| `Collection.ApplyPack` | main.py:161-171 | the loop's result is the collection after the pack: every count raised by its occurrences, positivity kept |
| `Collection.AfterOpening` | main.py:173-181 | opening takes one pack, counts one more opened, and raises each count by its occurrences in the pack |
| `Collection.RevealNewIffFirstCopy` | main.py:213-217 | a revealed card shows "New Card!" exactly when it was not owned before the pack and occurs once in it |
| `Collection.DuplicateInFreshPack` | main.py:213-217 | a card drawn twice into an empty collection has a stored count of at least 2 and is shown as a repeat on both reveals |
| `Collection.Refilled` | main.py:258-262 | an account below 5 gains exactly one pack; one at 5 is unchanged; the cap of 5 is kept; nothing else changes |
| `Game.RevealSetName` | main.py:205-211 | the set name is bound exactly when the card's set id is non-empty and a catalog set has it, and it is the name of the first catalog set with that id |
| `Game.Bot.constructor` | main.py:272-276 | the catalog snapshot is fixed; no accounts or sessions; the invariant holds |
| `Game.Bot.Begin` | main.py:74-84 | creates the 5-pack, 0-opened, empty account exactly when the user has none; otherwise changes nothing, so repeating it is a no-op |
| `Game.Bot.Open` | main.py:110-142 | fails with no change when a tier is empty, when the account is missing or when no pack is left; otherwise the session becomes the drawn pack at cursor 0 and the account is updated as by `AfterOpening`; the invariant is kept |
| `Game.Bot.RecordOpening` | main.py:139-181 | replaces the user's session by the pack at cursor 0 and the account by `AfterOpening`; nothing else changes |
| `Game.Bot.PressReveal` | main.py:183-251 | a non-owner press or a missing session changes nothing; otherwise it reveals the card at the cursor with the stored count and advances the cursor, or removes the session at the end; a reveal is new exactly when the count is 1; the cursor stays within 5 |
| `Game.Bot.RefillPass` | main.py:255-262 | every account becomes `Refilled` of its old value; no account is added or removed; sessions are unchanged; the invariant (including packs left at most 5) is kept |
| `SetsPagination.SumValuesRemove` | sets_pagination.py:16 | the sum of a map's values splits at any key, so the summing order does not matter |
| `SetsPagination.SumValuesUpdate` | sets_pagination.py:16 | writing a value at a key changes the sum by the new value minus the old |
| `SetsPagination.SumValuesAtLeastSize` | sets_pagination.py:16 | with all values at least 1, the sum is at least the number of keys |
| `SetsPagination.CollectedInSetPositive` | sets_pagination.py:16 | a set with any collected card shows at least one copy |
| `SetsPagination.CollectedInSetAfterPack` | sets_pagination.py:16 | opening a pack raises a set's collected count by the number of pack cards from that set |
| `SetsPagination.CardsWord` | sets_pagination.py:18 | the word is the singular "card" exactly when the count is 1, and "cards" otherwise |
| `SetsPagination.RenderProgress` | sets_pagination.py:9-18 | the shown count is the sum of the stored counts under the set id, 0 for an absent set, with the set's name, total and unit word |
| `SetsPagination.SetPageAfter` | sets_pagination.py:46-49 | "prev" moves back only from a page above 0; "next" moves forward only from below the last set; otherwise the page is unchanged; pages within the sets stay within them |
| `SetsPagination.SetPagesStayInRange` | sets_pagination.py:46-52 | from any page within a non-empty set list, every sequence of presses stays within [0, count - 1] |
| `SetsPagination.EverySetReachable` | sets_pagination.py:48-49 | k presses of "next" from page p reach page p + k while that is a set, so every set can be shown |
| `SetsPagination.SetsBrowser.constructor` | sets_pagination.py:6 | the page table starts empty |
| `SetsPagination.SetsBrowser.HandleSets` | sets_pagination.py:61-93 | a missing account or empty collection short-circuits with no page written; otherwise the page is reset to 0 and with at least one set the view is always listed: the sets as a name-sorted permutation of the catalog's, and the first set's full progress (name, summed count, total, unit word); with no sets the first render fails after the write |
| `SetsPagination.SetsBrowser.Press` | sets_pagination.py:37-58 | a non-owner press writes nothing; otherwise the stored page becomes `SetPageAfter` of the current one (0 when absent), and that set's progress is shown |
| `CardsPagination.TotalPages` | cards_pagination.py:7-8 | the page count is the ceiling of the row count over 15 |
| `CardsPagination.PageSlice` | cards_pagination.py:9 | the shown rows are the contiguous segment starting at page times 15, at most 15 of them, non-empty exactly when the page is below the page count |
| `CardsPagination.CardPageAfter` | cards_pagination.py:30-33 | "prev" moves back only from a page above 0; "next" moves forward only while the page is below len // 18; pages in [0, len // 18] stay there |
| `CardsPagination.CardPagesBounded` | cards_pagination.py:25-35 | from a page in [0, len // 18], no sequence of presses leaves that range |
| `CardsPagination.NextBoundWithinPages` | cards_pagination.py:8-32 | for a non-empty list, len // 18 is at most the last page index |
| `CardsPagination.ShownPageNonEmpty` | cards_pagination.py:6-35 | from the first page, any presses on a non-empty list show a non-empty page |
| `CardsPagination.SixteenthCardUnreachable` | cards_pagination.py:32 | with 16 rows (2 pages) the page stays 0 under any presses, so only the first 15 rows are ever shown |
| `CardsPagination.SetNameOrId` | cards_pagination.py:58 | the row's set name is the catalog set's name, or the set id when no catalog set has it |
| `CardsPagination.SetRows` | cards_pagination.py:58-62 | the rows of one set are one per collected card of that set found in the catalog, each with the catalog fields and the stored count |
| `CardsPagination.BuildCardsList` | cards_pagination.py:57-62 | there is exactly one row per collected (set, card) entry whose card id is in the catalog, each built from that entry |
| `CardsPagination.SortedRowsCoverEntries` | cards_pagination.py:57-64 | after sorting, the rows are, as a multiset, exactly the rows built from the collected catalog entries, each entry once |
| `CardsPagination.OneRowPerEntryCovers` | cards_pagination.py:57-64 | one row per entry gives as many rows as entries, every entry's row present and every row some entry's |
| `CardsPagination.EqualRowsListedTwice` | cards_pagination.py:57-64 | two distinct entries that build equal rows (the same card id under two set ids that share a set name and a count) put that row in the list at least twice |
| `CardsPagination.CardsBrowser.constructor` | cards_pagination.py:4 | the page table starts empty |
| `CardsPagination.CardsBrowser.HandleCards` | cards_pagination.py:41-82 | a missing account or empty collection short-circuits with no page written; otherwise the page is reset to 0 and the rows are shown sorted by name and are, as a multiset, the rows built from the collected catalog entries, each entry once; first page first |
| `CardsPagination.CardsBrowser.Press` | cards_pagination.py:22-39 | a non-owner press writes nothing; otherwise the stored page becomes `CardPageAfter` of the current one (0 when absent), and that slice is shown |

## Left out

- Chat-platform rendering is not modelled. This covers embeds, buttons, views, mentions,
  thumbnails, images and the emoji lookup (main.py:278-279). It also covers the
  "All cards pulled" summary text and the "Page x/y" title. A reveal keeps the position,
  card, set name, stored count and new/repeat flag.
- Percentage rounding (main.py:202) and float rounding of the cumulative thresholds are left
  out, because they are floating point. The model uses exact reals.
- MongoDB is left out. The users collection is an in-memory map, and the two writes of
  `open` (main.py:173-181) are one atomic update. A lost update between concurrent opens is
  not modelled.
- The catalog load is left out: the constructor takes the catalog as arguments.
- The asyncio loop, its `sleep` and `on_ready` are left out, because they are scheduling and
  concurrency; one refill pass is modelled. Interleaving of the refill with commands is out
  of scope. So is a button press arriving between `open`'s reply and its update.
- Environment, client and token setup are left out (main.py:12-23).
- Missing-field defaults in `.get(...)` calls are not modelled, because every record carries
  its fields. This covers `packs_left` default 0, `total_cards` default 0 and the card
  fallbacks in the reveal.
- Ordering.SortBy: does not state stability. The traversal order of the collection's
  dictionaries is not modelled, so the order of rows with equal card names is not
  determined.
- CardsPagination.BuildCardsList: does not fix the row order. Maps have no insertion order;
  the contract states the rows as a set of entries with no repeats.
- `handle_cards` is not reachable from any command (main.py:10 imports only
  `handle_sets`). It is modelled as the self-contained logic it is.
