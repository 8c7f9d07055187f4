/**
 * The shop panel: themes are bought once and then toggled on and off,
 * boosts are bought again on every purchase.
 */
module Shop {
  import opened Wrappers
  import opened Profiles
  import Ledger

  datatype Kind = Boost | ThemeItem(value: Theme)

  datatype Item = Item(id: string, name: string, price: int, kind: Kind)

  const Catalog: seq<Item> := [
    Item("boost_xp_1h", "XP Бустер (1ч)", 500, Boost),
    Item("boost_coin_1h", "Магнит Монет (1ч)", 800, Boost),
    Item("theme_sakura", "Стиль Сакуры", 10000, ThemeItem(Sakura))
  ]

  /** The panel's messages; `NotEnough` is the only error. */
  datatype Message = ThemeOff | ThemeOn | Bought(name: string) | Activated(name: string)
                   | NotEnough(shortfall: int)

  predicate IsOwned(p: Profile, id: string)
    ensures IsOwned(p, id) <==> exists k :: 0 <= k < |p.inventory| && p.inventory[k] == id
  {
    id in p.inventory
  }

  predicate IsActive(p: Profile, item: Item)
    ensures item.kind.ThemeItem? ==> (IsActive(p, item) <==> p.activeTheme == item.kind.value)
    ensures item.kind.Boost? ==> (IsActive(p, item) <==> item.id in p.activeBoosts)
  {
    match item.kind
    case ThemeItem(v) => p.activeTheme == v
    case Boost => item.id in p.activeBoosts
  }

  /**
   * A click on an item's button, with `coins` the balance the panel shows;
   * the spend callback succeeds exactly when `Ledger.Spend` does.
   */
  function Purchase(p: Profile, coins: int, item: Item): (e: Effect<Message>)
    ensures e.message.Some? && (e.message.value.NotEnough? <==> e.update.None?)
  {
    if item.kind.ThemeItem? && item.id in p.inventory then
      if p.activeTheme == item.kind.value then
        Effect(None, Some(NoFields().(activeTheme := Some(DefaultTheme))), Some(ThemeOff))
      else
        Effect(None, Some(NoFields().(activeTheme := Some(item.kind.value))), Some(ThemeOn))
    else if coins >= item.price then
      if Ledger.Spend(coins, item.price).ok then
        match item.kind
        case ThemeItem(v) =>
          Effect(Some(item.price),
                 Some(NoFields().(inventory := Some(p.inventory + [item.id]), activeTheme := Some(v))),
                 Some(Bought(item.name)))
        case Boost =>
          Effect(Some(item.price), Some(NoFields().(activeBoosts := Some(p.activeBoosts + [item.id]))),
                 Some(Activated(item.name)))
      else
        Effect(Some(item.price), None, None)
    else
      Effect(None, None, Some(NotEnough(item.price - coins)))
  }

  /** The profile after the click's update, if it sends one. */
  function After(p: Profile, e: Effect<Message>): Profile
  {
    if e.update.Some? then Apply(p, e.update.value) else p
  }

  /** Clicking an owned theme spends nothing and flips it on or off; nothing else changes. */
  lemma OwnedThemeToggles(p: Profile, coins: int, item: Item)
    requires item.kind.ThemeItem? && IsOwned(p, item.id)
    ensures Purchase(p, coins, item).spend.None?
    ensures After(p, Purchase(p, coins, item)) ==
            p.(activeTheme := if IsActive(p, item) then DefaultTheme else item.kind.value)
  {
  }

  /** For a theme other than the default one, two clicks on it restore the active theme. */
  lemma ToggleTwiceRestores(p: Profile, coins: int, item: Item)
    requires item.kind.ThemeItem? && item.kind.value != DefaultTheme && IsOwned(p, item.id)
    ensures After(After(p, Purchase(p, coins, item)), Purchase(After(p, Purchase(p, coins, item)), coins, item))
            == p
  {
    OwnedThemeToggles(p, coins, item);
    var q := After(p, Purchase(p, coins, item));
    OwnedThemeToggles(q, coins, item);
  }

  /** Without the coins, the click shows the shortfall and neither spends nor updates. */
  lemma ShortOfCoins(p: Profile, coins: int, item: Item)
    requires !(item.kind.ThemeItem? && IsOwned(p, item.id)) && coins < item.price
    ensures Purchase(p, coins, item) == Effect(None, None, Some(NotEnough(item.price - coins)))
    ensures item.price - coins > 0
  {
  }

  /** Buying a theme charges its price, adds it to the inventory and activates it. */
  lemma BuyTheme(p: Profile, coins: int, item: Item)
    requires item.kind.ThemeItem? && !IsOwned(p, item.id) && coins >= item.price
    ensures Purchase(p, coins, item).spend == Some(item.price)
    ensures After(p, Purchase(p, coins, item)) ==
            p.(inventory := p.inventory + [item.id], activeTheme := item.kind.value)
    ensures IsOwned(After(p, Purchase(p, coins, item)), item.id)
    ensures IsActive(After(p, Purchase(p, coins, item)), item)
  {
  }

  /** Buying a boost charges its price and appends it, even when it is already active. */
  lemma BuyBoost(p: Profile, coins: int, item: Item)
    requires item.kind.Boost? && coins >= item.price
    ensures Purchase(p, coins, item).spend == Some(item.price)
    ensures After(p, Purchase(p, coins, item)) == p.(activeBoosts := p.activeBoosts + [item.id])
    ensures IsActive(After(p, Purchase(p, coins, item)), item)
    ensures Occurrences(After(p, Purchase(p, coins, item)).activeBoosts, item.id)
            == Occurrences(p.activeBoosts, item.id) + 1
  {
    OccurrencesAppend(p.activeBoosts, item.id);
  }

  function Occurrences(s: seq<string>, x: string): nat
  {
    if s == [] then 0 else Occurrences(s[..|s| - 1], x) + (if s[|s| - 1] == x then 1 else 0)
  }

  lemma OccurrencesAppend(s: seq<string>, x: string)
    ensures Occurrences(s + [x], x) == Occurrences(s, x) + 1
  {
    assert (s + [x])[..|s + [x]| - 1] == s;
  }

  /** A purchase only ever adds to the inventory and the boosts, in order. */
  lemma PurchaseOnlyAppends(p: Profile, coins: int, item: Item)
    ensures p.inventory <= After(p, Purchase(p, coins, item)).inventory
    ensures p.activeBoosts <= After(p, Purchase(p, coins, item)).activeBoosts
    ensures After(p, Purchase(p, coins, item)).displayName == p.displayName
    ensures After(p, Purchase(p, coins, item)).avatar == p.avatar
  {
  }
}
