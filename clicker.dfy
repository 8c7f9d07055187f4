/**
 * The Clicker game: a 60-second round in which every click counts; when
 * the time runs out the click count is mapped to a reward in coins and a
 * rank.
 */
module Clicker {

  /** A reward tier: coins earned and the rank shown. */
  datatype Tier = Tier(reward: nat, rank: string)

  const Beginner := "Начинающий"
  const Amateur := "Любитель"
  const FastFingers := "Быстрые пальчики"
  const ClickGod := "Бог клика"

  /**
   * The tier of a click count, as the end of a round computes it: start
   * from the lowest tier and let each threshold passed override the last.
   */
  function TierFor(count: int): (t: Tier)
    ensures t.reward <= 300
    ensures t.reward == 0 <==> t.rank == Beginner
  {
    var t0 := Tier(0, Beginner);
    var t1 := if count > 100 then Tier(50, Amateur) else t0;
    var t2 := if count > 300 then Tier(150, FastFingers) else t1;
    if count > 500 then Tier(300, ClickGod) else t2
  }

  /** The four bands: up to 100, 101 to 300, 301 to 500, above 500. */
  lemma TierBands(count: int)
    ensures count <= 100 ==> TierFor(count) == Tier(0, Beginner)
    ensures 100 < count <= 300 ==> TierFor(count) == Tier(50, Amateur)
    ensures 300 < count <= 500 ==> TierFor(count) == Tier(150, FastFingers)
    ensures 500 < count ==> TierFor(count) == Tier(300, ClickGod)
  {
  }

  /** More clicks never earn less. */
  lemma RewardMonotone(a: int, b: int)
    requires a <= b
    ensures TierFor(a).reward <= TierFor(b).reward
  {
  }

  /** Coins are paid exactly when the count passes 100. */
  lemma RewardPaidIff(count: int)
    ensures TierFor(count).reward > 0 <==> count > 100
  {
  }

  /** The rank names the reward: equal ranks mean equal rewards. */
  lemma RankDeterminesReward(a: int, b: int)
    requires TierFor(a).rank == TierFor(b).rank
    ensures TierFor(a).reward == TierFor(b).reward
  {
    assert Beginner != Amateur && Beginner != FastFingers && Beginner != ClickGod;
    assert Amateur != FastFingers && Amateur != ClickGod && FastFingers != ClickGod;
  }

  /**
   * The round as the component holds it.  `startCount` is the click count
   * that the round's timer callback sees: the one current when the round
   * was started.
   */
  datatype Session = Session(count: nat, timeLeft: nat, playing: bool, showResult: bool, rank: string,
                             startCount: nat)

  function Initial(): Session
  {
    Session(0, 60, false, false, "Beginner", 0)
  }

  /** Start a round: count 0, 60 seconds; the timer keeps the count seen now. */
  function Start(s: Session): (r: Session)
    ensures r.playing && r.count == 0 && r.timeLeft == 60 && !r.showResult && r.startCount == s.count
  {
    Session(0, 60, true, false, "Beginner", s.count)
  }

  /** A click counts only during a round. */
  function Click(s: Session): (r: Session)
    ensures s.playing ==> r == s.(count := s.count + 1)
    ensures !s.playing ==> r == s
  {
    if !s.playing then s else s.(count := s.count + 1)
  }

  function Clicks(s: Session, n: nat): (r: Session)
    ensures s.playing ==> r == s.(count := s.count + n)
  {
    if n == 0 then s else Click(Clicks(s, n - 1))
  }

  /**
   * One second of the round timer, with the round's end as written: the
   * tier is computed from the count the timer callback captured at the start.
   * Returns the new session and the coins paid.
   */
  function TickAsWritten(s: Session): (r: (Session, nat))
    requires s.playing
    ensures r.0.count == s.count && r.0.startCount == s.startCount
    ensures s.timeLeft > 1 ==> r.0.playing && r.0.timeLeft == s.timeLeft - 1 && r.1 == 0
    ensures s.timeLeft <= 1 ==>
      && !r.0.playing && r.0.showResult && r.0.timeLeft == 0
      && r.1 == TierFor(s.startCount).reward && r.0.rank == TierFor(s.startCount).rank
  {
    if s.timeLeft <= 1 then
      var t := TierFor(s.startCount);
      (s.(timeLeft := 0, playing := false, showResult := true, rank := t.rank), t.reward)
    else
      (s.(timeLeft := s.timeLeft - 1), 0)
  }

  /** One second of the round timer, the round's end using the round's own count. */
  function Tick(s: Session): (r: (Session, nat))
    requires s.playing
    ensures r.0.count == s.count && r.0.startCount == s.startCount
    ensures s.timeLeft > 1 ==> r.0.playing && r.0.timeLeft == s.timeLeft - 1 && r.1 == 0
    ensures s.timeLeft <= 1 ==>
      && !r.0.playing && r.0.showResult && r.0.timeLeft == 0
      && r.1 == TierFor(s.count).reward && r.0.rank == TierFor(s.count).rank
  {
    if s.timeLeft <= 1 then
      var t := TierFor(s.count);
      (s.(timeLeft := 0, playing := false, showResult := true, rank := t.rank), t.reward)
    else
      (s.(timeLeft := s.timeLeft - 1), 0)
  }

  /** Let the timer run until the round is over; the coins paid in total. */
  function RunOutAsWritten(s: Session): (r: (Session, nat))
    requires s.playing
    ensures !r.0.playing && r.0.showResult && r.0.count == s.count && r.0.startCount == s.startCount
    ensures r.1 == TierFor(s.startCount).reward && r.0.rank == TierFor(s.startCount).rank
    decreases s.timeLeft
  {
    if s.timeLeft <= 1 then TickAsWritten(s)
    else
      var (s', _) := TickAsWritten(s);
      RunOutAsWritten(s')
  }

  function RunOut(s: Session): (r: (Session, nat))
    requires s.playing
    ensures !r.0.playing && r.0.showResult && r.0.count == s.count
    ensures r.1 == TierFor(s.count).reward && r.0.rank == TierFor(s.count).rank
    decreases s.timeLeft
  {
    if s.timeLeft <= 1 then Tick(s)
    else
      var (s', _) := Tick(s);
      RunOut(s')
  }

  /**
   * As written, the first round never pays: its timer sees the count 0 of
   * the start screen, so 600 clicks still end as a Beginner with no coins.
   */
  lemma FirstRoundPaysNothingAsWritten()
    ensures var r := RunOutAsWritten(Clicks(Start(Initial()), 600));
      r.1 == 0 && r.0.rank == Beginner && r.0.count == 600
  {
  }

  /** With the round's own count, 600 clicks earn 300 coins and the top rank. */
  lemma FirstRoundPays()
    ensures var r := RunOut(Clicks(Start(Initial()), 600));
      r.1 == 300 && r.0.rank == ClickGod
  {
  }

  /** As written, a replayed round is paid for the previous round's clicks. */
  lemma ReplayPaysPreviousRoundAsWritten(s: Session, n: nat)
    requires !s.playing
    ensures RunOutAsWritten(Clicks(Start(s), n)).1 == TierFor(s.count).reward
  {
  }

  /** With the round's own count, every round is paid for its own clicks. */
  lemma RoundPaysOwnClicks(s: Session, n: nat)
    ensures RunOut(Clicks(Start(s), n)).1 == TierFor(n).reward
    ensures RunOut(Clicks(Start(s), n)).0.rank == TierFor(n).rank
  {
  }
}
