/**
 * The application shell: the coin balance, the favourites, the player's
 * profile, the game list filter, and the wiring of the shop and settings
 * panels' requests to the balance and the profile.
 */
module Hub {
  import opened Wrappers
  import opened Profiles
  import Ledger
  import Shop
  import ProfileSettings

  datatype Category = Single | Multi

  datatype Game = Game(id: string, name: string, category: Category)

  const Games: seq<Game> := [
    Game("1", "2048", Single),
    Game("2", "Snake", Single),
    Game("3", "Dino Run", Single),
    Game("4", "Clicker", Single),
    Game("5", "Шашки", Multi),
    Game("6", "Сапёр", Single),
    Game("7", "Пасьянс", Single),
    Game("8", "Tetris", Single),
    Game("9", "Paint", Multi)
  ]

  datatype Filter = All | SingleOnly | MultiOnly | Favorites

  /** Lower case for the Latin and Cyrillic capitals; other characters are kept. */
  function LowerChar(c: char): (d: char)
    ensures 'A' <= c <= 'Z' ==> d as int == c as int + 32
    ensures 'a' <= d <= 'z' <==> ('a' <= c <= 'z' || 'A' <= c <= 'Z')
  {
    var n := c as int;
    if 0x41 <= n <= 0x5A then (n + 0x20) as char          // A..Z
    else if 0x410 <= n <= 0x42F then (n + 0x20) as char   // А..Я
    else if 0x400 <= n <= 0x40F then (n + 0x50) as char   // Ѐ..Џ, Ё among them
    else c
  }

  function Lower(s: string): (r: string)
    ensures |r| == |s| && forall i :: 0 <= i < |s| ==> r[i] == LowerChar(s[i])
  {
    if s == [] then [] else [LowerChar(s[0])] + Lower(s[1..])
  }

  /** Lower-casing a lower-cased character changes nothing. */
  lemma LowerCharIdempotent(c: char)
    ensures LowerChar(LowerChar(c)) == LowerChar(c)
  {
  }

  lemma LowerIdempotent(s: string)
    ensures Lower(Lower(s)) == Lower(s)
  {
    forall i | 0 <= i < |s|
      ensures Lower(Lower(s))[i] == Lower(s)[i]
    {
      LowerCharIdempotent(s[i]);
    }
  }

  /** `q` occurs somewhere in `s` as a contiguous run. */
  predicate Contains(s: string, q: string)
  {
    exists i :: 0 <= i <= |s| && q <= s[i..]
  }

  predicate MatchesFilter(g: Game, f: Filter, favorites: set<string>)
  {
    match f
    case All => true
    case SingleOnly => g.category == Single
    case MultiOnly => g.category == Multi
    case Favorites => g.id in favorites
  }

  /** Whether a game is shown for the search query, the filter and the favourites. */
  predicate Listed(g: Game, query: string, f: Filter, favorites: set<string>)
  {
    Contains(Lower(g.name), Lower(query)) && MatchesFilter(g, f, favorites)
  }

  /** The listed games, in catalogue order. */
  function Filtered(games: seq<Game>, query: string, f: Filter, favorites: set<string>): (r: seq<Game>)
    ensures |r| <= |games|
    ensures forall g :: g in r <==> g in games && Listed(g, query, f, favorites)
  {
    if games == [] then []
    else
      (if Listed(games[0], query, f, favorites) then [games[0]] else [])
      + Filtered(games[1..], query, f, favorites)
  }

  /** The query is not case-sensitive. */
  lemma QueryIgnoresCase(g: Game, query: string, f: Filter, favorites: set<string>)
    ensures Listed(g, Lower(query), f, favorites) == Listed(g, query, f, favorites)
  {
    LowerIdempotent(query);
  }

  /** With an empty query and the 'all' filter every game is listed, in order. */
  lemma {:induction false} EverythingListed(games: seq<Game>, favorites: set<string>)
    ensures Filtered(games, "", All, favorites) == games
  {
    if games != [] {
      assert Lower(games[0].name)[0..] == Lower(games[0].name);
      assert Listed(games[0], "", All, favorites);
      EverythingListed(games[1..], favorites);
    }
  }

  /** A narrower filter lists no game that 'all' would not. */
  lemma {:induction false} FilterNarrows(games: seq<Game>, query: string, f: Filter, favorites: set<string>)
    ensures forall g :: g in Filtered(games, query, f, favorites) ==> g in Filtered(games, query, All, favorites)
  {
  }

  /** The favourites set with `id` flipped. */
  function Toggled(favorites: set<string>, id: string): (r: set<string>)
    ensures id in r <==> id !in favorites
    ensures forall x :: x != id ==> (x in r <==> x in favorites)
  {
    if id in favorites then favorites - {id} else favorites + {id}
  }

  /** Toggling the same game twice restores the favourites. */
  lemma ToggleTwice(favorites: set<string>, id: string)
    ensures Toggled(Toggled(favorites, id), id) == favorites
  {
  }

  /** The application state. */
  class App {
    var coins: int
    var favorites: set<string>
    var user: Profile
    var query: string
    var filter: Filter

    /** A new player: 1000 coins, no favourites, the guest profile. */
    constructor ()
      ensures coins == 1000 && favorites == {} && user == InitialProfile()
      ensures query == "" && filter == All
    {
      coins := 1000;
      favorites := {};
      user := InitialProfile();
      query := "";
      filter := All;
    }

    /** The games on screen. */
    function Listing(): (r: seq<Game>)
      reads this
      ensures forall g :: g in r <==> g in Games && Listed(g, query, filter, favorites)
      ensures query == "" && filter == All ==> r == Games
    {
      EverythingListed(Games, favorites);
      Filtered(Games, query, filter, favorites)
    }

    method AddCoins(amount: int)
      modifies this
      ensures coins == Ledger.Earn(old(coins), amount)
      ensures favorites == old(favorites) && user == old(user)
      ensures query == old(query) && filter == old(filter)
    {
      coins := coins + amount;
    }

    method SpendCoins(amount: int) returns (ok: bool)
      modifies this
      ensures ok == Ledger.Spend(old(coins), amount).ok
      ensures coins == Ledger.Spend(old(coins), amount).balance
      ensures old(coins) >= 0 ==> coins >= 0
      ensures favorites == old(favorites) && user == old(user)
      ensures query == old(query) && filter == old(filter)
    {
      if coins >= amount {
        coins := coins - amount;
        return true;
      }
      return false;
    }

    method UpdateUser(u: Update)
      modifies this
      ensures user == Apply(old(user), u)
      ensures coins == old(coins) && favorites == old(favorites)
      ensures query == old(query) && filter == old(filter)
    {
      user := Apply(user, u);
    }

    method ToggleFavorite(id: string)
      modifies this
      ensures favorites == Toggled(old(favorites), id)
      ensures coins == old(coins) && user == old(user)
      ensures query == old(query) && filter == old(filter)
    {
      if id in favorites {
        favorites := favorites - {id};
      } else {
        favorites := favorites + {id};
      }
    }

    method SetFilter(f: Filter)
      modifies this
      ensures filter == f
      ensures coins == old(coins) && favorites == old(favorites) && user == old(user) && query == old(query)
    {
      filter := f;
    }

    method SetQuery(q: string)
      modifies this
      ensures query == q
      ensures coins == old(coins) && favorites == old(favorites) && user == old(user) && filter == old(filter)
    {
      query := q;
    }

    /** Carry out a panel's request: the spend first, then the update it sent. */
    method Perform<M>(e: Effect<M>)
      modifies this
      ensures coins == if e.spend.Some? then Ledger.Spend(old(coins), e.spend.value).balance else old(coins)
      ensures user == if e.update.Some? then Apply(old(user), e.update.value) else old(user)
      ensures favorites == old(favorites) && query == old(query) && filter == old(filter)
    {
      if e.spend.Some? {
        var _ := SpendCoins(e.spend.value);
      }
      if e.update.Some? {
        UpdateUser(e.update.value);
      }
    }

    /** A click in the shop. */
    method Purchase(item: Shop.Item) returns (msg: Option<Shop.Message>)
      modifies this
      ensures var e := Shop.Purchase(old(user), old(coins), item);
        msg == e.message && user == Shop.After(old(user), e)
        && coins == if e.spend.Some? then old(coins) - item.price else old(coins)
      ensures old(coins) >= 0 ==> coins >= 0
      ensures favorites == old(favorites) && query == old(query) && filter == old(filter)
    {
      var e := Shop.Purchase(user, coins, item);
      Perform(e);
      msg := e.message;
    }

    /** A click on the save button next to the name field holding `name`. */
    method SaveName(name: string) returns (msg: Option<ProfileSettings.Message>)
      modifies this
      ensures var e := ProfileSettings.SaveName(old(user), name, old(coins));
        msg == e.message && user == ProfileSettings.After(old(user), e)
        && coins == if e.update.Some? && e.spend.Some? then old(coins) - ProfileSettings.RenamePrice else old(coins)
      ensures user.displayName != old(user.displayName) ==> user.hasChangedName
      ensures favorites == old(favorites) && query == old(query) && filter == old(filter)
    {
      var e := ProfileSettings.SaveName(user, name, coins);
      Perform(e);
      msg := e.message;
    }

    /** A click on an avatar. */
    method SelectAvatar(a: Avatar) returns (msg: Option<ProfileSettings.Message>)
      modifies this
      ensures var e := ProfileSettings.SelectAvatar(old(user), a, old(coins));
        msg == e.message && user == ProfileSettings.After(old(user), e)
        && coins == if e.update.Some? && e.spend.Some? then old(coins) - a.price else old(coins)
      ensures a.id in old(user.unlockedAvatars) ==> coins == old(coins)
      ensures favorites == old(favorites) && query == old(query) && filter == old(filter)
    {
      var e := ProfileSettings.SelectAvatar(user, a, coins);
      Perform(e);
      msg := e.message;
    }
  }
}
