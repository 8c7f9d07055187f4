/**
 * The player's profile record and the partial updates the settings and shop
 * panels send to the application, which merges them field by field.
 */
module Profiles {
  import opened Wrappers

  datatype Theme = DefaultTheme | Sakura

  datatype Profile = Profile(
    tgId: Option<int>,
    tgUsername: string,
    displayName: string,
    avatar: string,
    unlockedAvatars: seq<string>,   // ids of unlocked avatars
    inventory: seq<string>,         // ids of bought shop items
    activeTheme: Theme,
    activeBoosts: seq<string>,      // ids of bought boosts, one entry per purchase
    hasChangedName: bool)

  /** A partial profile: `None` marks a field the update does not carry. */
  datatype Update = Update(
    tgUsername: Option<string>,
    displayName: Option<string>,
    avatar: Option<string>,
    unlockedAvatars: Option<seq<string>>,
    inventory: Option<seq<string>>,
    activeTheme: Option<Theme>,
    activeBoosts: Option<seq<string>>,
    hasChangedName: Option<bool>)

  /** The update that carries no field. */
  function NoFields(): Update
  {
    Update(None, None, None, None, None, None, None, None)
  }

  function Or<T>(o: Option<T>, d: T): T
  {
    if o.Some? then o.value else d
  }

  /** The record spread `{...p, ...u}`: a field present in `u` wins. */
  function Apply(p: Profile, u: Update): (r: Profile)
    ensures r.tgId == p.tgId
    ensures u.tgUsername.Some? ==> r.tgUsername == u.tgUsername.value
    ensures u.tgUsername.None? ==> r.tgUsername == p.tgUsername
    ensures u.displayName.Some? ==> r.displayName == u.displayName.value
    ensures u.displayName.None? ==> r.displayName == p.displayName
    ensures u.avatar.Some? ==> r.avatar == u.avatar.value
    ensures u.avatar.None? ==> r.avatar == p.avatar
    ensures u.unlockedAvatars.Some? ==> r.unlockedAvatars == u.unlockedAvatars.value
    ensures u.unlockedAvatars.None? ==> r.unlockedAvatars == p.unlockedAvatars
    ensures u.inventory.Some? ==> r.inventory == u.inventory.value
    ensures u.inventory.None? ==> r.inventory == p.inventory
    ensures u.activeTheme.Some? ==> r.activeTheme == u.activeTheme.value
    ensures u.activeTheme.None? ==> r.activeTheme == p.activeTheme
    ensures u.activeBoosts.Some? ==> r.activeBoosts == u.activeBoosts.value
    ensures u.activeBoosts.None? ==> r.activeBoosts == p.activeBoosts
    ensures u.hasChangedName.Some? ==> r.hasChangedName == u.hasChangedName.value
    ensures u.hasChangedName.None? ==> r.hasChangedName == p.hasChangedName
  {
    Profile(p.tgId, Or(u.tgUsername, p.tgUsername), Or(u.displayName, p.displayName),
            Or(u.avatar, p.avatar), Or(u.unlockedAvatars, p.unlockedAvatars),
            Or(u.inventory, p.inventory), Or(u.activeTheme, p.activeTheme),
            Or(u.activeBoosts, p.activeBoosts), Or(u.hasChangedName, p.hasChangedName))
  }

  /** Two updates sent one after the other, as one: the later one's fields win. */
  function Then(u1: Update, u2: Update): Update
  {
    Update(if u2.tgUsername.Some? then u2.tgUsername else u1.tgUsername,
           if u2.displayName.Some? then u2.displayName else u1.displayName,
           if u2.avatar.Some? then u2.avatar else u1.avatar,
           if u2.unlockedAvatars.Some? then u2.unlockedAvatars else u1.unlockedAvatars,
           if u2.inventory.Some? then u2.inventory else u1.inventory,
           if u2.activeTheme.Some? then u2.activeTheme else u1.activeTheme,
           if u2.activeBoosts.Some? then u2.activeBoosts else u1.activeBoosts,
           if u2.hasChangedName.Some? then u2.hasChangedName else u1.hasChangedName)
  }

  /** An update with no fields leaves the profile as it is. */
  lemma ApplyNoFields(p: Profile)
    ensures Apply(p, NoFields()) == p
  {
  }

  /** Applying the same update again changes nothing more. */
  lemma ApplyIdempotent(p: Profile, u: Update)
    ensures Apply(Apply(p, u), u) == Apply(p, u)
  {
  }

  /** Successive merges compose. */
  lemma ApplyThen(p: Profile, u1: Update, u2: Update)
    ensures Apply(Apply(p, u1), u2) == Apply(p, Then(u1, u2))
  {
  }

  /**
   * What a panel's click handler asks of the application: the amount it
   * passes to the spend callback (if it calls it), the profile update it
   * sends, and the message the panel then shows (`None`: both cleared).
   */
  datatype Effect<M> = Effect(spend: Option<int>, update: Option<Update>, message: Option<M>)

  /** An avatar on offer in the settings panel. */
  datatype Avatar = Avatar(id: string, url: string, price: int)

  const Avatars: seq<Avatar> := [
    Avatar("default", "https://picsum.photos/seed/user/200/200", 0),
    Avatar("robot", "https://picsum.photos/seed/robot/200/200", 1000),
    Avatar("ninja", "https://picsum.photos/seed/ninja/200/200", 1000),
    Avatar("king", "https://picsum.photos/seed/king/200/200", 1000),
    Avatar("alien", "https://picsum.photos/seed/alien/200/200", 1000),
    Avatar("cat", "https://picsum.photos/seed/cat/200/200", 1000),
    Avatar("dog", "https://picsum.photos/seed/dog/200/200", 1000),
    Avatar("skull", "https://picsum.photos/seed/skull/200/200", 1000)
  ]

  /** The guest profile the application starts with. */
  function InitialProfile(): (p: Profile)
    ensures p.avatar == Avatars[0].url && p.unlockedAvatars == [Avatars[0].id]
    ensures p.inventory == [] && p.activeBoosts == [] && p.activeTheme == DefaultTheme
    ensures !p.hasChangedName
  {
    Profile(None, "@loading...", "Guest Player", Avatars[0].url, ["default"], [], DefaultTheme, [], false)
  }
}
