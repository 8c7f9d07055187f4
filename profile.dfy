/**
 * The profile settings panel: renaming (the first change is free, later
 * ones cost 5000 coins) and choosing or buying an avatar.
 */
module ProfileSettings {
  import opened Wrappers
  import opened Profiles
  import Ledger

  /** The price of every name change after the first. */
  const RenamePrice := 5000

  /** The panel's messages; the `...NeedsCoins` ones and `NameTooShort` are errors. */
  datatype Message = NameTooShort | NameChangedFree | NameChangedPaid | NameNeedsCoins
                   | AvatarBought(price: int) | AvatarNeedsCoins(price: int)

  /** The white space and line terminators that string trimming removes. */
  predicate IsSpace(c: char)
  {
    var n := c as int;
    n == 0x09 || n == 0x0A || n == 0x0B || n == 0x0C || n == 0x0D || n == 0x20 || n == 0xA0
    || n == 0x1680 || (0x2000 <= n <= 0x200A) || n == 0x2028 || n == 0x2029 || n == 0x202F
    || n == 0x205F || n == 0x3000 || n == 0xFEFF
  }

  function TrimStart(s: string): (r: string)
    ensures |r| <= |s|
    ensures r == [] || !IsSpace(r[0])
    ensures r == s[|s| - |r|..]
    ensures forall i :: 0 <= i < |s| - |r| ==> IsSpace(s[i])
  {
    if s != [] && IsSpace(s[0]) then TrimStart(s[1..]) else s
  }

  function TrimEnd(s: string): (r: string)
    ensures |r| <= |s|
    ensures r == [] || !IsSpace(r[|r| - 1])
    ensures r == s[..|r|]
    ensures forall i :: |r| <= i < |s| ==> IsSpace(s[i])
  {
    if s != [] && IsSpace(s[|s| - 1]) then TrimEnd(s[..|s| - 1]) else s
  }

  /** The string without its leading and trailing white space. */
  function Trim(s: string): string
  {
    TrimEnd(TrimStart(s))
  }

  /** A trimmed string starts and ends with something other than white space. */
  lemma TrimmedHasNoOuterSpace(s: string)
    ensures Trim(s) == [] || (!IsSpace(Trim(s)[0]) && !IsSpace(Trim(s)[|Trim(s)| - 1]))
  {
    var t := TrimStart(s);
    var r := TrimEnd(t);
    if r != [] {
      assert r[0] == t[0];
    }
  }

  /** Trimming keeps a slice of the string and cuts only white space on either side. */
  lemma {:induction false} TrimIsSlice(s: string)
    ensures var i := |s| - |TrimStart(s)|;
      i + |Trim(s)| <= |s| && Trim(s) == s[i..i + |Trim(s)|]
      && (forall k :: 0 <= k < i ==> IsSpace(s[k]))
      && (forall k :: i + |Trim(s)| <= k < |s| ==> IsSpace(s[k]))
  {
    var t := TrimStart(s);
    var i := |s| - |t|;
    var r := TrimEnd(t);
    assert t == s[i..] && r == t[..|r|];
    assert r == s[i..i + |r|];
    forall k | i + |r| <= k < |s|
      ensures IsSpace(s[k])
    {
      assert s[k] == t[k - i];
    }
  }

  lemma {:induction false} TrimStartOfUntouched(s: string)
    requires s == [] || !IsSpace(s[0])
    ensures TrimStart(s) == s
  {
  }

  /** Trimming twice is trimming once. */
  lemma TrimIdempotent(s: string)
    ensures Trim(Trim(s)) == Trim(s)
  {
    var r := Trim(s);
    TrimmedHasNoOuterSpace(s);
    TrimStartOfUntouched(r);
    assert TrimStart(r) == r;
    assert TrimEnd(r) == r;
  }

  /** The profile after the handler's update, if it sends one. */
  function After(p: Profile, e: Effect<Message>): Profile
  {
    if e.update.Some? then Apply(p, e.update.value) else p
  }

  /**
   * Saving the name as written: the guards look at the trimmed input, but
   * the update carries the input untrimmed.
   */
  function SaveNameAsWritten(p: Profile, name: string, coins: int): (e: Effect<Message>)
    ensures e.spend.Some? <==> Trim(name) != p.displayName && |Trim(name)| >= 3 && p.hasChangedName
    ensures e.spend.Some? ==> e.spend.value == RenamePrice
    ensures e.update.Some? <==>
      Trim(name) != p.displayName && |Trim(name)| >= 3 && (!p.hasChangedName || coins >= RenamePrice)
    ensures e.update.Some? ==> e.update.value.displayName == Some(name)
  {
    if Trim(name) == p.displayName then Effect(None, None, None)
    else if |Trim(name)| < 3 then Effect(None, None, Some(NameTooShort))
    else if !p.hasChangedName then
      Effect(None, Some(NoFields().(displayName := Some(name), hasChangedName := Some(true))),
             Some(NameChangedFree))
    else if Ledger.Spend(coins, RenamePrice).ok then
      Effect(Some(RenamePrice), Some(NoFields().(displayName := Some(name))), Some(NameChangedPaid))
    else
      Effect(Some(RenamePrice), None, Some(NameNeedsCoins))
  }

  /** Saving the name the guards approved: the trimmed input. */
  function SaveName(p: Profile, name: string, coins: int): (e: Effect<Message>)
    ensures e.spend.Some? <==> Trim(name) != p.displayName && |Trim(name)| >= 3 && p.hasChangedName
    ensures e.spend.Some? ==> e.spend.value == RenamePrice
    ensures e.update.Some? <==>
      Trim(name) != p.displayName && |Trim(name)| >= 3 && (!p.hasChangedName || coins >= RenamePrice)
    ensures e.update.Some? ==> e.update.value.displayName == Some(Trim(name))
  {
    var t := Trim(name);
    if t == p.displayName then Effect(None, None, None)
    else if |t| < 3 then Effect(None, None, Some(NameTooShort))
    else if !p.hasChangedName then
      Effect(None, Some(NoFields().(displayName := Some(t), hasChangedName := Some(true))),
             Some(NameChangedFree))
    else if Ledger.Spend(coins, RenamePrice).ok then
      Effect(Some(RenamePrice), Some(NoFields().(displayName := Some(t))), Some(NameChangedPaid))
    else
      Effect(Some(RenamePrice), None, Some(NameNeedsCoins))
  }

  /** Saving the current name again, up to white space, does nothing at all. */
  lemma SameNameIsNoOp(p: Profile, name: string, coins: int)
    requires Trim(name) == p.displayName
    ensures SaveName(p, name, coins) == Effect(None, None, None)
    ensures SaveNameAsWritten(p, name, coins) == Effect(None, None, None)
  {
  }

  /** A new name under three characters is refused before any spend. */
  lemma ShortNameRefused(p: Profile, name: string, coins: int)
    requires Trim(name) != p.displayName && |Trim(name)| < 3
    ensures SaveName(p, name, coins) == Effect(None, None, Some(NameTooShort))
    ensures SaveNameAsWritten(p, name, coins) == Effect(None, None, Some(NameTooShort))
  {
  }

  /**
   * The first change is free, renames and records that the free change is
   * used; as written the name stored is the input itself, corrected it is
   * the trimmed input.
   */
  lemma FirstRenameIsFree(p: Profile, name: string, coins: int)
    requires Trim(name) != p.displayName && |Trim(name)| >= 3 && !p.hasChangedName
    ensures SaveName(p, name, coins).spend.None?
    ensures After(p, SaveName(p, name, coins)) == p.(displayName := Trim(name), hasChangedName := true)
    ensures SaveName(p, name, coins).message == Some(NameChangedFree)
    ensures SaveNameAsWritten(p, name, coins).spend.None?
    ensures After(p, SaveNameAsWritten(p, name, coins)) == p.(displayName := name, hasChangedName := true)
    ensures SaveNameAsWritten(p, name, coins).message == Some(NameChangedFree)
  {
  }

  /**
   * Later changes ask for 5000 coins and rename exactly when the balance
   * covers them; as written the name stored is the input itself.
   */
  lemma LaterRenameCosts(p: Profile, name: string, coins: int)
    requires Trim(name) != p.displayName && |Trim(name)| >= 3 && p.hasChangedName
    ensures SaveName(p, name, coins).spend == Some(RenamePrice)
    ensures coins >= RenamePrice ==> After(p, SaveName(p, name, coins)) == p.(displayName := Trim(name))
    ensures coins >= RenamePrice ==> SaveName(p, name, coins).message == Some(NameChangedPaid)
    ensures coins < RenamePrice ==> After(p, SaveName(p, name, coins)) == p
    ensures coins < RenamePrice ==> SaveName(p, name, coins).message == Some(NameNeedsCoins)
    ensures SaveNameAsWritten(p, name, coins).spend == Some(RenamePrice)
    ensures coins >= RenamePrice ==> After(p, SaveNameAsWritten(p, name, coins)) == p.(displayName := name)
    ensures coins >= RenamePrice ==> SaveNameAsWritten(p, name, coins).message == Some(NameChangedPaid)
    ensures coins < RenamePrice ==> After(p, SaveNameAsWritten(p, name, coins)) == p
    ensures coins < RenamePrice ==> SaveNameAsWritten(p, name, coins).message == Some(NameNeedsCoins)
  {
  }

  /**
   * A saved name is stored without outer white space, and saving the same
   * input once more costs nothing and changes nothing.
   */
  lemma {:induction false} ResaveIsFree(p: Profile, name: string, coins: int, coins': int)
    requires SaveName(p, name, coins).update.Some?
    ensures var q := After(p, SaveName(p, name, coins));
      q.displayName == Trim(name) && SaveName(q, name, coins') == Effect(None, None, None)
  {
  }

  /**
   * As written, a name with a trailing space is stored with it, so saving
   * the same input again passes the guard and, once the free change is
   * used, charges another 5000 coins for a name that does not change.
   */
  lemma {:induction false} ResaveChargesAsWritten(p: Profile, w: string, coins: int)
    requires w != [] && !IsSpace(w[0]) && !IsSpace(w[|w| - 1]) && |w| >= 3
    requires !p.hasChangedName && p.displayName != w && coins >= RenamePrice
    ensures var q := After(p, SaveNameAsWritten(p, w + " ", coins));
      var e2 := SaveNameAsWritten(q, w + " ", coins);
      q.displayName == w + " " && e2.spend == Some(RenamePrice) && After(q, e2) == q
  {
    TrimDropsTrailingSpace(w);
    var q := After(p, SaveNameAsWritten(p, w + " ", coins));
    assert q.displayName == w + " ";
    assert |q.displayName| != |w|;
  }

  lemma TrimDropsTrailingSpace(w: string)
    requires w != [] && !IsSpace(w[0]) && !IsSpace(w[|w| - 1])
    ensures Trim(w + " ") == w
  {
    var s := w + " ";
    assert TrimStart(s) == s;
    assert s[..|s| - 1] == w;
    assert TrimEnd(w) == w;
  }

  /** Choosing an avatar; `a.price` is what a locked avatar costs. */
  function SelectAvatar(p: Profile, a: Avatar, coins: int): (e: Effect<Message>)
    ensures e.spend.None? <==> a.id in p.unlockedAvatars
    ensures e.spend.Some? ==> e.spend.value == a.price
    ensures e.update.Some? <==> a.id in p.unlockedAvatars || coins >= a.price
    ensures e.update.Some? ==> e.update.value.avatar == Some(a.url)
  {
    if a.id in p.unlockedAvatars then Effect(None, Some(NoFields().(avatar := Some(a.url))), None)
    else if Ledger.Spend(coins, a.price).ok then
      Effect(Some(a.price),
             Some(NoFields().(avatar := Some(a.url), unlockedAvatars := Some(p.unlockedAvatars + [a.id]))),
             Some(AvatarBought(a.price)))
    else
      Effect(Some(a.price), None, Some(AvatarNeedsCoins(a.price)))
  }

  /** An unlocked avatar is put on for free. */
  lemma UnlockedAvatarIsFree(p: Profile, a: Avatar, coins: int)
    requires a.id in p.unlockedAvatars
    ensures SelectAvatar(p, a, coins).spend.None?
    ensures After(p, SelectAvatar(p, a, coins)) == p.(avatar := a.url)
  {
  }

  /** A locked avatar costs its price; bought, it is worn and unlocked for good. */
  lemma LockedAvatarIsBought(p: Profile, a: Avatar, coins: int)
    requires a.id !in p.unlockedAvatars
    ensures SelectAvatar(p, a, coins).spend == Some(a.price)
    ensures coins >= a.price ==>
      After(p, SelectAvatar(p, a, coins)) == p.(avatar := a.url, unlockedAvatars := p.unlockedAvatars + [a.id])
    ensures coins < a.price ==> After(p, SelectAvatar(p, a, coins)) == p
  {
  }

  /** Once bought, choosing the same avatar again is free. */
  lemma {:induction false} BoughtAvatarStaysUnlocked(p: Profile, a: Avatar, coins: int, coins': int)
    ensures var q := After(p, SelectAvatar(p, a, coins));
      p.unlockedAvatars <= q.unlockedAvatars
      && (SelectAvatar(p, a, coins).update.Some? ==> SelectAvatar(q, a, coins').spend.None?)
  {
    var q := After(p, SelectAvatar(p, a, coins));
    if a.id !in p.unlockedAvatars && coins >= a.price {
      assert q.unlockedAvatars[|p.unlockedAvatars|] == a.id;
    }
  }
}
