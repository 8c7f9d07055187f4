/**
 * Klondike Solitaire: a shuffled 52-card deck dealt into seven tableau
 * columns, a draw pile (deck) whose top card is the last one, a waste
 * pile, and four foundations built up from the Ace by suit.  A click first
 * selects a source (the waste top or a face-up tableau card), a second click
 * on a target moves it there when the target accepts it.
 */
module Solitaire {
  import opened Wrappers

  datatype Suit = Hearts | Diamonds | Clubs | Spades
  datatype Colour = Red | Black

  /** A card: suit, rank 1 (Ace) to 13 (King), and whether it lies face up. */
  datatype Card = Card(suit: Suit, val: int, faceUp: bool)

  type Stack = seq<Card>

  function ColourOf(c: Card): Colour
  {
    if c.suit == Hearts || c.suit == Diamonds then Red else Black
  }

  /** What identifies a card, whichever way it lies. */
  function Kind(c: Card): (Suit, int)
  {
    (c.suit, c.val)
  }

  const Suits: seq<Suit> := [Hearts, Diamonds, Clubs, Spades]

  function SuitIndex(s: Suit): (i: nat)
    ensures i < 4 && Suits[i] == s
  {
    match s
    case Hearts => 0
    case Diamonds => 1
    case Clubs => 2
    case Spades => 3
  }

  // ---------------------------------------------------------------------
  // The deck
  // ---------------------------------------------------------------------

  /** The unshuffled deck: hearts, diamonds, clubs, spades, each Ace to King, face down. */
  function OrderedDeck(): (d: Stack)
    ensures |d| == 52
  {
    seq(52, i requires 0 <= i < 52 => Card(Suits[i / 13], i % 13 + 1, false))
  }

  /** Suit si, rank v sits at position 13 * si + v - 1 of the ordered deck, face down. */
  lemma {:induction false} OrderedDeckAt(si: int, v: int)
    requires 0 <= si < 4 && 1 <= v <= 13
    ensures OrderedDeck()[13 * si + v - 1] == Card(Suits[si], v, false)
  {
    CardIndex(si, v);
  }

  /** No card is in the ordered deck twice. */
  lemma {:induction false} OrderedDeckDistinct()
    ensures forall i, j :: 0 <= i < j < 52 ==> Kind(OrderedDeck()[i]) != Kind(OrderedDeck()[j])
  {
    var d := OrderedDeck();
    forall i, j | 0 <= i < j < 52
      ensures Kind(d[i]) != Kind(d[j])
    {
      if i / 13 == j / 13 {
        assert i % 13 != j % 13 by { DivModUnique(i, j); }
      } else {
        assert Suits[i / 13] != Suits[j / 13];
      }
    }
  }

  lemma CardIndex(si: int, v: int)
    requires 0 <= si < 4 && 1 <= v <= 13
    ensures (13 * si + v - 1) / 13 == si && (13 * si + v - 1) % 13 == v - 1
  {
  }

  lemma DivModUnique(i: int, j: int)
    requires 0 <= i < j < 52 && i / 13 == j / 13
    ensures i % 13 != j % 13
  {
  }

  /** Build the ordered deck suit by suit, Ace to King, then shuffle it. */
  method CreateDeck(picks: seq<nat>) returns (d: Stack)
    requires |picks| == 52
    ensures |d| == 52 && multiset(d) == multiset(OrderedDeck())
  {
    var cards: Stack := [];
    var si := 0;
    while si < 4
      invariant 0 <= si <= 4 && cards == OrderedDeck()[..13 * si]
    {
      var v := 1;
      while v <= 13
        invariant 1 <= v <= 14 && cards == OrderedDeck()[..13 * si + v - 1]
      {
        CardIndex(si, v);
        assert OrderedDeck()[..13 * si + v] == OrderedDeck()[..13 * si + v - 1] + [OrderedDeck()[13 * si + v - 1]];
        cards := cards + [Card(Suits[si], v, false)];
        v := v + 1;
      }
      si := si + 1;
    }
    assert cards == OrderedDeck();
    var a := new Card[52](i requires 0 <= i < 52 => cards[i]);
    assert a[..] == cards;
    Shuffle(a, picks);
    d := a[..];
  }

  /**
   * Fisher-Yates shuffle in place: for i from the last index down to 1,
   * swap a[i] with a[j] for a j between 0 and i; the j of step i is
   * picks[i] reduced to that range (the random draw is a parameter).
   */
  method Shuffle(a: array<Card>, picks: seq<nat>)
    requires |picks| == a.Length
    modifies a
    ensures multiset(a[..]) == multiset(old(a[..]))
  {
    var i := a.Length - 1;
    while i > 0
      invariant -1 <= i < a.Length || a.Length == 0
      invariant multiset(a[..]) == multiset(old(a[..]))
    {
      var j := picks[i] % (i + 1);
      a[i], a[j] := a[j], a[i];
      i := i - 1;
    }
  }

  /** A shuffled deck still holds each card exactly once, all face down. */
  lemma {:induction false} ShuffledDeckIsComplete(d: Stack)
    requires multiset(d) == multiset(OrderedDeck())
    ensures |d| == 52
    ensures forall c :: c in d ==> !c.faceUp && 1 <= c.val <= 13
    ensures forall si, v :: 0 <= si < 4 && 1 <= v <= 13 ==> Card(Suits[si], v, false) in d
  {
    calc {
      |d|;
      |multiset(d)|;
      |multiset(OrderedDeck())|;
      52;
    }
    forall c | c in d
      ensures !c.faceUp && 1 <= c.val <= 13
    {
      assert c in multiset(OrderedDeck());
    }
    forall si, v | 0 <= si < 4 && 1 <= v <= 13
      ensures Card(Suits[si], v, false) in d
    {
      OrderedDeckAt(si, v);
      assert OrderedDeck()[13 * si + v - 1] in multiset(d);
    }
  }

  // ---------------------------------------------------------------------
  // Dealing
  // ---------------------------------------------------------------------

  /** Cards handed out before column n: 0 + 1 + ... + n. */
  function Tri(n: nat): nat
  {
    if n == 0 then 0 else Tri(n - 1) + n
  }

  lemma {:induction false} TriBound(n: nat)
    requires n <= 7
    ensures Tri(n) <= 28 && (n < 7 ==> Tri(n) + n + 1 <= 28)
    decreases 7 - n
  {
    if n < 7 {
      TriBound(n + 1);
    } else {
      assert Tri(7) == 28;
    }
  }

  /**
   * Column i as dealt from d: i + 1 cards popped off the end of d after the
   * Tri(i) cards of the earlier columns, the last of them turned face up.
   */
  function DealtColumn(d: Stack, i: nat): (col: Stack)
    requires |d| == 52 && i < 7
    ensures |col| == i + 1
  {
    TriBound(i + 1);
    seq(i + 1, j requires 0 <= j < i + 1 =>
      var c := d[51 - Tri(i) - j]; if j == i then c.(faceUp := true) else c)
  }

  /** Deal: seven columns popped from the deck, column i taking i + 1 cards. */
  method Deal(d0: Stack) returns (deck: Stack, tableau: seq<Stack>)
    requires |d0| == 52
    ensures deck == d0[..24] && |tableau| == 7
    ensures forall i :: 0 <= i < 7 ==> tableau[i] == DealtColumn(d0, i)
  {
    deck := d0;
    tableau := [[], [], [], [], [], [], []];
    var i := 0;
    while i < 7
      invariant 0 <= i <= 7 && |tableau| == 7 && Tri(i) <= 28
      invariant deck == d0[..52 - Tri(i)]
      invariant forall k :: 0 <= k < i ==> tableau[k] == DealtColumn(d0, k)
      invariant forall k :: i <= k < 7 ==> tableau[k] == []
    {
      TriBound(i + 1);
      var j := 0;
      while j <= i
        invariant 0 <= j <= i + 1 && |tableau| == 7
        invariant deck == d0[..52 - Tri(i) - j]
        invariant tableau[i] == DealtColumn(d0, i)[..j]
        invariant forall k :: 0 <= k < i ==> tableau[k] == DealtColumn(d0, k)
        invariant forall k :: i < k < 7 ==> tableau[k] == []
      {
        var c := deck[|deck| - 1];
        deck := deck[..|deck| - 1];
        if j == i {
          c := c.(faceUp := true);
        }
        assert DealtColumn(d0, i)[..j + 1] == DealtColumn(d0, i)[..j] + [c];
        tableau := tableau[i := tableau[i] + [c]];
        j := j + 1;
      }
      assert DealtColumn(d0, i)[..i + 1] == DealtColumn(d0, i);
      i := i + 1;
    }
  }

  /**
   * Dealing a face-down deck: column i has i + 1 cards of which only the
   * last is face up, and 24 cards stay in the deck.
   */
  lemma {:induction false} DealShape(d0: Stack, i: nat)
    requires |d0| == 52 && i < 7 && forall c :: c in d0 ==> !c.faceUp
    ensures |DealtColumn(d0, i)| == i + 1 && |d0[..24]| == 24
    ensures forall j :: 0 <= j <= i ==> (DealtColumn(d0, i)[j].faceUp <==> j == i)
  {
    TriBound(i + 1);
    forall j | 0 <= j <= i
      ensures DealtColumn(d0, i)[j].faceUp <==> j == i
    {
      assert d0[51 - Tri(i) - j] in d0;
    }
  }

  /** The columns one after another. */
  function Flatten(cols: seq<Stack>): Stack
  {
    if |cols| == 0 then [] else Flatten(cols[..|cols| - 1]) + cols[|cols| - 1]
  }

  /** How many cards of kind k the stack holds. */
  function Count(s: Stack, k: (Suit, int)): nat
  {
    if |s| == 0 then 0 else Count(s[..|s| - 1], k) + (if Kind(s[|s| - 1]) == k then 1 else 0)
  }

  /** How many cards of kind k the columns of a zone hold together. */
  function PileCount(cols: seq<Stack>, k: (Suit, int)): nat
  {
    if |cols| == 0 then 0 else PileCount(cols[..|cols| - 1], k) + Count(cols[|cols| - 1], k)
  }

  lemma {:induction false} CountAppend(a: Stack, b: Stack, k: (Suit, int))
    ensures Count(a + b, k) == Count(a, k) + Count(b, k)
  {
    if |b| == 0 {
      assert a + b == a;
    } else {
      assert (a + b)[..|a + b| - 1] == a + b[..|b| - 1];
      CountAppend(a, b[..|b| - 1], k);
    }
  }

  lemma CountPush(s: Stack, c: Card, k: (Suit, int))
    ensures Count(s + [c], k) == Count(s, k) + (if Kind(c) == k then 1 else 0)
  {
    assert (s + [c])[..|s|] == s;
  }

  lemma {:induction false} PileCountFlatten(cols: seq<Stack>, k: (Suit, int))
    ensures PileCount(cols, k) == Count(Flatten(cols), k)
  {
    if |cols| > 0 {
      PileCountFlatten(cols[..|cols| - 1], k);
      CountAppend(Flatten(cols[..|cols| - 1]), cols[|cols| - 1], k);
    }
  }

  /** Turning cards over does not change which cards a stack holds. */
  lemma {:induction false} CountIgnoresFaces(a: Stack, b: Stack, k: (Suit, int))
    requires |a| == |b| && forall i :: 0 <= i < |a| ==> Kind(a[i]) == Kind(b[i])
    ensures Count(a, k) == Count(b, k)
  {
    if |a| > 0 {
      CountIgnoresFaces(a[..|a| - 1], b[..|b| - 1], k);
    }
  }

  /** Nor does reversing it. */
  lemma {:induction false} CountReversed(a: Stack, b: Stack, k: (Suit, int))
    requires |a| == |b| && forall i :: 0 <= i < |a| ==> Kind(a[i]) == Kind(b[|b| - 1 - i])
    ensures Count(a, k) == Count(b, k)
  {
    if |a| > 0 {
      var n := |a|;
      CountReversed(a[1..], b[..n - 1], k);
      assert a == [a[0]] + a[1..];
      CountAppend([a[0]], a[1..], k);
      assert [a[0]][..0] == [];
    }
  }

  /** Count depends only on which cards a stack holds. */
  lemma {:induction false} CountOfSameMultiset(a: Stack, b: Stack, k: (Suit, int))
    requires multiset(a) == multiset(b)
    ensures Count(a, k) == Count(b, k)
    decreases |a|
  {
    if |a| > 0 {
      var c := a[|a| - 1];
      assert c in multiset(b);
      var j :| 0 <= j < |b| && b[j] == c;
      var b' := b[..j] + b[j + 1..];
      assert b == b[..j] + [c] + b[j + 1..];
      assert a == a[..|a| - 1] + [c];
      assert multiset(a) == multiset(a[..|a| - 1]) + multiset{c};
      assert multiset(b) == multiset(b[..j]) + multiset{c} + multiset(b[j + 1..]);
      assert multiset(b') == multiset(b[..j]) + multiset(b[j + 1..]);
      MultisetCancel(multiset(a[..|a| - 1]), multiset(b'), multiset{c});
      CountOfSameMultiset(a[..|a| - 1], b', k);
      CountAppend(b[..j] + [c], b[j + 1..], k);
      CountAppend(b[..j], b[j + 1..], k);
      CountPush(b[..j], c, k);
    }
  }

  lemma MultisetCancel<T>(a: multiset<T>, b: multiset<T>, c: multiset<T>)
    requires a + c == b + c
    ensures a == b
  {
    forall e
      ensures a[e] == b[e]
    {
      assert (a + c)[e] == (b + c)[e];
    }
  }

  lemma {:induction false} CountAbsent(s: Stack, k: (Suit, int))
    requires forall i :: 0 <= i < |s| ==> Kind(s[i]) != k
    ensures Count(s, k) == 0
  {
    if |s| > 0 {
      CountAbsent(s[..|s| - 1], k);
    }
  }

  lemma {:induction false} CountPresent(s: Stack, i: nat, k: (Suit, int))
    requires i < |s| && Kind(s[i]) == k
    ensures Count(s, k) >= 1
  {
    if i < |s| - 1 {
      CountPresent(s[..|s| - 1], i, k);
    }
  }

  lemma {:induction false} CountAtMostOne(s: Stack, k: (Suit, int))
    requires forall i, j :: 0 <= i < j < |s| ==> Kind(s[i]) != Kind(s[j])
    ensures Count(s, k) <= 1
  {
    if |s| > 0 {
      var p := s[..|s| - 1];
      CountAtMostOne(p, k);
      if Kind(s[|s| - 1]) == k {
        CountAbsent(p, k);
      }
    }
  }

  /** The ordered deck holds each of the 52 cards once and nothing else. */
  lemma {:induction false} OrderedDeckCounts(k: (Suit, int))
    ensures Count(OrderedDeck(), k) == if 1 <= k.1 <= 13 then 1 else 0
  {
    if 1 <= k.1 <= 13 {
      OrderedDeckHasCard(k);
    } else {
      CountAbsent(OrderedDeck(), k);
    }
  }

  lemma {:induction false} OrderedDeckHasCard(k: (Suit, int))
    requires 1 <= k.1 <= 13
    ensures Count(OrderedDeck(), k) == 1
  {
    var d := OrderedDeck();
    OrderedDeckDistinct();
    CountAtMostOne(d, k);
    var si := SuitIndex(k.0);
    var idx := 13 * si + k.1 - 1;
    OrderedDeckAt(si, k.1);
    assert Kind(d[idx]) == k;
    CountPresent(d, idx, k);
  }

  /** The dealt columns, one after another, are the last 28 cards of d in pop order. */
  lemma {:induction false} DealtColumnsInPopOrder(d0: Stack, n: nat)
    requires |d0| == 52 && n <= 7
    ensures Tri(n) <= 28
    ensures var f := Flatten(seq(n, i requires 0 <= i < n => DealtColumn(d0, i)));
      |f| == Tri(n) && forall p :: 0 <= p < Tri(n) ==> Kind(f[p]) == Kind(d0[51 - p])
  {
    TriBound(n);
    if n > 0 {
      var cols := seq(n, i requires 0 <= i < n => DealtColumn(d0, i));
      var prev := seq(n - 1, i requires 0 <= i < n - 1 => DealtColumn(d0, i));
      assert cols[..n - 1] == prev;
      DealtColumnsInPopOrder(d0, n - 1);
      var f, g, col := Flatten(cols), Flatten(prev), DealtColumn(d0, n - 1);
      assert f == g + col;
      forall p | 0 <= p < Tri(n)
        ensures Kind(f[p]) == Kind(d0[51 - p])
      {
        if p >= Tri(n - 1) {
          assert f[p] == col[p - Tri(n - 1)];
        }
      }
    }
  }

  /**
   * Dealing loses and duplicates nothing: the deck and the seven columns
   * together hold exactly the cards of the shuffled deck.
   */
  lemma {:induction false} DealKeepsCards(d0: Stack, tableau: seq<Stack>, k: (Suit, int))
    requires |d0| == 52 && |tableau| == 7
    requires forall i :: 0 <= i < 7 ==> tableau[i] == DealtColumn(d0, i)
    ensures Count(d0[..24], k) + PileCount(tableau, k) == Count(d0, k)
  {
    DealtColumnsInPopOrder(d0, 7);
    assert tableau == seq(7, i requires 0 <= i < 7 => DealtColumn(d0, i));
    PileCountFlatten(tableau, k);
    CountReversed(Flatten(tableau), d0[24..], k);
    CountAppend(d0[..24], d0[24..], k);
    assert d0[..24] + d0[24..] == d0;
  }

  // ---------------------------------------------------------------------
  // The table and the rules
  // ---------------------------------------------------------------------

  /** The selected source: the waste top, or a tableau card and those on it. */
  datatype Selection = FromWaste | FromTableau(idx: nat, cardIdx: nat)

  /** What was clicked: the waste, a foundation, a tableau card or an empty column. */
  datatype Target = WasteZone | FoundationZone(idx: nat) | TableauZone(idx: nat, cardIdx: Option<nat>)

  datatype Table = Table(deck: Stack, waste: Stack, foundations: seq<Stack>, tableau: seq<Stack>,
                         selected: Option<Selection>)

  /** Four foundations, seven columns, and a selection that points at a card. */
  predicate WellFormed(st: Table)
  {
    && |st.foundations| == 4 && |st.tableau| == 7
    && (st.selected == Some(FromWaste) ==> |st.waste| > 0)
    && (st.selected.Some? && st.selected.value.FromTableau? ==>
          st.selected.value.idx < 7 && st.selected.value.cardIdx < |st.tableau[st.selected.value.idx]|)
  }

  /** The clicked zone exists (and the clicked tableau card is in its column). */
  predicate TargetOk(st: Table, t: Target)
  {
    match t
    case WasteZone => true
    case FoundationZone(i) => i < 4
    case TableauZone(i, ci) => i < 7 && |st.tableau| == 7 && (ci.Some? ==> ci.value < |st.tableau[i]|)
  }

  /** An empty column takes a King; otherwise the top card must be of the other colour and one rank higher. */
  predicate TableauAccepts(col: Stack, card: Card)
    ensures |col| == 0 ==> (TableauAccepts(col, card) <==> card.val == 13)
    ensures |col| > 0 ==> (TableauAccepts(col, card) <==>
      ColourOf(col[|col| - 1]) != ColourOf(card) && col[|col| - 1].val == card.val + 1)
  {
    (|col| == 0 && card.val == 13) ||
    (|col| > 0 && ColourOf(col[|col| - 1]) != ColourOf(card) && col[|col| - 1].val == card.val + 1)
  }

  /** An empty foundation takes an Ace; otherwise the top card must be of the same suit and one rank lower. */
  predicate FoundationAccepts(pile: Stack, card: Card)
    ensures |pile| == 0 ==> (FoundationAccepts(pile, card) <==> card.val == 1)
    ensures |pile| > 0 ==> (FoundationAccepts(pile, card) <==>
      pile[|pile| - 1].suit == card.suit && pile[|pile| - 1].val == card.val - 1)
  {
    (|pile| == 0 && card.val == 1) ||
    (|pile| > 0 && pile[|pile| - 1].suit == card.suit && pile[|pile| - 1].val == card.val - 1)
  }

  /** The stack with its top card turned face up. */
  function FlipTop(s: Stack): (r: Stack)
    ensures |r| == |s| && forall i :: 0 <= i < |s| ==> Kind(r[i]) == Kind(s[i])
    ensures |s| > 0 ==> r[|s| - 1].faceUp && r[..|s| - 1] == s[..|s| - 1]
    ensures |s| == 0 ==> r == s
  {
    if |s| == 0 then s else s[..|s| - 1] + [s[|s| - 1].(faceUp := true)]
  }

  function Top(s: Stack): Card
    requires |s| > 0
  {
    s[|s| - 1]
  }

  function Pop(s: Stack): Stack
    requires |s| > 0
  {
    s[..|s| - 1]
  }

  /** One click, as the game handles it. */
  function HandleCardClick(st: Table, t: Target): (r: Table)
    requires WellFormed(st) && TargetOk(st, t)
    ensures WellFormed(r)
  {
    match st.selected
    case None =>
      (match t
       case WasteZone => if |st.waste| > 0 then st.(selected := Some(FromWaste)) else st
       case FoundationZone(_) => st
       case TableauZone(i, ci) =>
         if |st.tableau[i]| > 0 && ci.Some? then
           if st.tableau[i][ci.value].faceUp then st.(selected := Some(FromTableau(i, ci.value)))
           else if ci.value == |st.tableau[i]| - 1 then st.(tableau := st.tableau[i := FlipTop(st.tableau[i])])
           else st
         else st)
    case Some(FromWaste) =>
      (match t
       case WasteZone => st
       case TableauZone(i, _) =>
         if TableauAccepts(st.tableau[i], Top(st.waste)) then
           st.(tableau := st.tableau[i := st.tableau[i] + [Top(st.waste)]], waste := Pop(st.waste), selected := None)
         else st.(selected := None)
       case FoundationZone(i) =>
         if FoundationAccepts(st.foundations[i], Top(st.waste)) then
           st.(foundations := st.foundations[i := st.foundations[i] + [Top(st.waste)]], waste := Pop(st.waste),
               selected := None)
         else st.(selected := None))
    case Some(FromTableau(si, ci)) =>
      (match t
       case TableauZone(i, _) =>
         if si != i && TableauAccepts(st.tableau[i], st.tableau[si][ci]) then
           st.(tableau := st.tableau[i := st.tableau[i] + st.tableau[si][ci..]][si := FlipTop(st.tableau[si][..ci])],
               selected := None)
         else st.(selected := None)
       case FoundationZone(i) =>
         if ci == |st.tableau[si]| - 1 && FoundationAccepts(st.foundations[i], st.tableau[si][ci]) then
           st.(foundations := st.foundations[i := st.foundations[i] + [st.tableau[si][ci]]],
               tableau := st.tableau[si := FlipTop(st.tableau[si][..ci])], selected := None)
         else st.(selected := None)
       case WasteZone => st.(selected := None))
  }

  /** The selected card or run may go to the clicked target. */
  predicate Legal(st: Table, t: Target)
    requires WellFormed(st) && TargetOk(st, t)
    ensures Legal(st, t) ==> st.selected.Some? && !t.WasteZone?
    ensures Legal(st, t) && st.selected.value.FromTableau? && t.TableauZone? ==> st.selected.value.idx != t.idx
    ensures Legal(st, t) && st.selected.value.FromTableau? && t.FoundationZone? ==>
      st.selected.value.cardIdx == |st.tableau[st.selected.value.idx]| - 1
  {
    match st.selected
    case None => false
    case Some(FromWaste) =>
      (t.TableauZone? && TableauAccepts(st.tableau[t.idx], Top(st.waste))) ||
      (t.FoundationZone? && FoundationAccepts(st.foundations[t.idx], Top(st.waste)))
    case Some(FromTableau(si, ci)) =>
      (t.TableauZone? && si != t.idx && TableauAccepts(st.tableau[t.idx], st.tableau[si][ci])) ||
      (t.FoundationZone? && ci == |st.tableau[si]| - 1 && FoundationAccepts(st.foundations[t.idx], st.tableau[si][ci]))
  }

  /**
   * With a card selected, a target that does not accept it only clears the
   * selection: no zone changes.  (Clicking the waste again while the waste
   * is selected keeps the selection.)
   */
  lemma {:induction false} IllegalTargetChangesNoZone(st: Table, t: Target)
    requires WellFormed(st) && TargetOk(st, t) && st.selected.Some? && !Legal(st, t)
    ensures var r := HandleCardClick(st, t);
      r == st.(selected := None) || (st.selected == Some(FromWaste) && t == WasteZone && r == st)
  {
  }

  /** A legal move consumes the selection and puts the moved cards on the target. */
  lemma {:induction false} LegalMoveLands(st: Table, t: Target)
    requires WellFormed(st) && TargetOk(st, t) && Legal(st, t)
    ensures var r := HandleCardClick(st, t);
      && r.selected == None && r.deck == st.deck
      && (st.selected == Some(FromWaste) ==>
            r.waste == Pop(st.waste) &&
            (t.TableauZone? ==> r.tableau[t.idx] == st.tableau[t.idx] + [Top(st.waste)] && r.foundations == st.foundations) &&
            (t.FoundationZone? ==> r.foundations[t.idx] == st.foundations[t.idx] + [Top(st.waste)] && r.tableau == st.tableau))
      && (st.selected.Some? && st.selected.value.FromTableau? ==>
            var si := st.selected.value.idx;
            var ci := st.selected.value.cardIdx;
            r.waste == st.waste && r.tableau[si] == FlipTop(st.tableau[si][..ci]) &&
            (t.TableauZone? ==> r.tableau[t.idx] == st.tableau[t.idx] + st.tableau[si][ci..]) &&
            (t.FoundationZone? ==> r.foundations[t.idx] == st.foundations[t.idx] + [st.tableau[si][ci]]))
    ensures var r := HandleCardClick(st, t);
      |r.tableau| == |st.tableau| && |r.foundations| == |st.foundations|
    ensures var r := HandleCardClick(st, t);
      st.selected == Some(FromWaste) && t.TableauZone? ==>
        forall j :: 0 <= j < |st.tableau| && j != t.idx ==> r.tableau[j] == st.tableau[j]
    ensures var r := HandleCardClick(st, t);
      t.FoundationZone? ==>
        forall j :: 0 <= j < |st.foundations| && j != t.idx ==> r.foundations[j] == st.foundations[j]
    ensures var r := HandleCardClick(st, t);
      st.selected.Some? && st.selected.value.FromTableau? ==>
        forall j :: 0 <= j < |st.tableau| && j != st.selected.value.idx && !(t.TableauZone? && j == t.idx) ==>
          r.tableau[j] == st.tableau[j]
    ensures var r := HandleCardClick(st, t);
      t.TableauZone? ==> r.foundations == st.foundations
  {
  }

  /** Only a King can be moved onto an empty column. */
  lemma {:induction false} OnlyKingsFillEmptyColumns(st: Table, i: nat, ci: Option<nat>)
    requires WellFormed(st) && TargetOk(st, TableauZone(i, ci)) && |st.tableau[i]| == 0
    requires |HandleCardClick(st, TableauZone(i, ci)).tableau[i]| > 0
    ensures st.selected == Some(FromWaste) ==> Top(st.waste).val == 13
    ensures st.selected.Some? && st.selected.value.FromTableau? ==>
      st.tableau[st.selected.value.idx][st.selected.value.cardIdx].val == 13
  {
  }

  /** A foundation is an ascending run of one suit from the Ace. */
  predicate FoundationRun(pile: Stack)
  {
    forall k :: 0 <= k < |pile| ==> pile[k].val == k + 1 && pile[k].suit == pile[0].suit
  }

  predicate ShowsTop(col: Stack)
  {
    |col| > 0 ==> col[|col| - 1].faceUp
  }

  predicate TopsShown(cols: seq<Stack>)
  {
    forall i :: 0 <= i < |cols| ==> ShowsTop(cols[i])
  }

  predicate AllFaceUp(s: Stack)
  {
    forall k :: 0 <= k < |s| ==> s[k].faceUp
  }

  predicate Runs(piles: seq<Stack>)
  {
    forall i :: 0 <= i < |piles| ==> FoundationRun(piles[i])
  }

  /**
   * Every nonempty column shows its top card, the waste lies face up and
   * every foundation is a suit run from the Ace.
   */
  predicate Good(st: Table)
  {
    WellFormed(st) && TopsShown(st.tableau) && AllFaceUp(st.waste) && Runs(st.foundations)
  }

  lemma {:induction false} RunGrows(pile: Stack, card: Card)
    requires FoundationRun(pile) && FoundationAccepts(pile, card)
    ensures FoundationRun(pile + [card])
  {
  }

  /** Clicks keep the table Good. */
  lemma {:induction false} ClickKeepsGood(st: Table, t: Target)
    requires Good(st) && TargetOk(st, t)
    ensures Good(HandleCardClick(st, t))
  {
    if st.selected.None? {
    } else if !Legal(st, t) {
      IllegalTargetChangesNoZone(st, t);
    } else if st.selected == Some(FromWaste) {
      WasteMoveKeepsGood(st, t);
    } else {
      TableauMoveKeepsGood(st, t);
    }
  }

  lemma {:induction false} WasteMoveKeepsGood(st: Table, t: Target)
    requires Good(st) && TargetOk(st, t) && st.selected == Some(FromWaste) && Legal(st, t)
    ensures Good(HandleCardClick(st, t))
  {
    var c := Top(st.waste);
    var i := t.idx;
    assert c.faceUp;
    if t.TableauZone? {
      assert HandleCardClick(st, t) ==
        st.(tableau := st.tableau[i := st.tableau[i] + [c]], waste := Pop(st.waste), selected := None);
    } else {
      assert HandleCardClick(st, t) ==
        st.(foundations := st.foundations[i := st.foundations[i] + [c]], waste := Pop(st.waste), selected := None);
      RunGrows(st.foundations[i], c);
    }
  }

  lemma {:induction false} TableauMoveKeepsGood(st: Table, t: Target)
    requires Good(st) && TargetOk(st, t) && st.selected.Some? && st.selected.value.FromTableau? && Legal(st, t)
    ensures Good(HandleCardClick(st, t))
  {
    var si, ci := st.selected.value.idx, st.selected.value.cardIdx;
    var col := st.tableau[si];
    var rest := FlipTop(col[..ci]);
    var i := t.idx;
    assert ShowsTop(col);
    if t.TableauZone? {
      var mid := st.tableau[i := st.tableau[i] + col[ci..]];
      assert (st.tableau[i] + col[ci..])[|st.tableau[i] + col[ci..]| - 1] == col[|col| - 1];
      assert HandleCardClick(st, t) == st.(tableau := mid[si := rest], selected := None);
    } else {
      assert HandleCardClick(st, t) == st.(foundations := st.foundations[i := st.foundations[i] + [col[ci]]],
        tableau := st.tableau[si := rest], selected := None);
      RunGrows(st.foundations[i], col[ci]);
    }
  }

  /** How many cards of kind k lie on the table, in any zone. */
  function OnTable(st: Table, k: (Suit, int)): nat
  {
    Count(st.deck, k) + Count(st.waste, k) + PileCount(st.foundations, k) + PileCount(st.tableau, k)
  }

  /** Replacing one column changes the zone's count by the difference. */
  lemma {:induction false} PileCountUpdate(cols: seq<Stack>, i: nat, x: Stack, k: (Suit, int))
    requires i < |cols|
    ensures PileCount(cols[i := x], k) + Count(cols[i], k) == PileCount(cols, k) + Count(x, k)
  {
    var n := |cols|;
    if i == n - 1 {
      assert cols[i := x][..n - 1] == cols[..n - 1];
    } else {
      assert cols[i := x][..n - 1] == cols[..n - 1][i := x];
      assert cols[i := x][n - 1] == cols[n - 1] && cols[..n - 1][i] == cols[i];
      PileCountUpdate(cols[..n - 1], i, x, k);
    }
  }

  /** A click moves cards between zones but never creates or loses one. */
  lemma {:induction false} ClickKeepsCards(st: Table, t: Target)
    requires WellFormed(st) && TargetOk(st, t)
    ensures forall k :: OnTable(HandleCardClick(st, t), k) == OnTable(st, k)
  {
    forall k
      ensures OnTable(HandleCardClick(st, t), k) == OnTable(st, k)
    {
      var r := HandleCardClick(st, t);
      if st.selected.None? {
        if t.TableauZone? && r.tableau != st.tableau {
          FlipKeepsCards(st, t.idx, k);
        }
      } else if Legal(st, t) {
        if st.selected == Some(FromWaste) {
          WasteMoveKeepsCards(st, t, k);
        } else {
          TableauMoveKeepsCards(st, t, k);
        }
      }
    }
  }

  lemma {:induction false} FlipKeepsCards(st: Table, i: nat, k: (Suit, int))
    requires WellFormed(st) && i < 7
    ensures OnTable(st.(tableau := st.tableau[i := FlipTop(st.tableau[i])]), k) == OnTable(st, k)
  {
    CountIgnoresFaces(FlipTop(st.tableau[i]), st.tableau[i], k);
    PileCountUpdate(st.tableau, i, FlipTop(st.tableau[i]), k);
  }

  lemma {:induction false} WasteMoveKeepsCards(st: Table, t: Target, k: (Suit, int))
    requires WellFormed(st) && TargetOk(st, t) && st.selected == Some(FromWaste) && Legal(st, t)
    ensures OnTable(HandleCardClick(st, t), k) == OnTable(st, k)
  {
    var c := Top(st.waste);
    assert st.waste == Pop(st.waste) + [c];
    CountPush(Pop(st.waste), c, k);
    var i := t.idx;
    if t.TableauZone? {
      var r := st.(tableau := st.tableau[i := st.tableau[i] + [c]], waste := Pop(st.waste), selected := None);
      assert HandleCardClick(st, t) == r;
      CountPush(st.tableau[i], c, k);
      PileCountUpdate(st.tableau, i, st.tableau[i] + [c], k);
    } else {
      var r := st.(foundations := st.foundations[i := st.foundations[i] + [c]], waste := Pop(st.waste), selected := None);
      assert HandleCardClick(st, t) == r;
      CountPush(st.foundations[i], c, k);
      PileCountUpdate(st.foundations, i, st.foundations[i] + [c], k);
    }
  }

  lemma {:induction false} TableauMoveKeepsCards(st: Table, t: Target, k: (Suit, int))
    requires WellFormed(st) && TargetOk(st, t) && st.selected.Some? && st.selected.value.FromTableau? && Legal(st, t)
    ensures OnTable(HandleCardClick(st, t), k) == OnTable(st, k)
  {
    var si, ci := st.selected.value.idx, st.selected.value.cardIdx;
    var col := st.tableau[si];
    var rest := FlipTop(col[..ci]);
    var run := col[ci..];
    CountIgnoresFaces(rest, col[..ci], k);
    assert col == col[..ci] + run;
    CountAppend(col[..ci], run, k);
    var i := t.idx;
    if t.TableauZone? {
      var mid := st.tableau[i := st.tableau[i] + run];
      var fin := mid[si := rest];
      assert HandleCardClick(st, t) == st.(tableau := fin, selected := None);
      CountAppend(st.tableau[i], run, k);
      PileCountUpdate(st.tableau, i, st.tableau[i] + run, k);
      assert mid[si] == col;
      PileCountUpdate(mid, si, rest, k);
    } else {
      var fin := st.tableau[si := rest];
      assert HandleCardClick(st, t) == st.(foundations := st.foundations[i := st.foundations[i] + [col[ci]]],
        tableau := fin, selected := None);
      assert run == [col[ci]];
      CountPush(st.foundations[i], col[ci], k);
      CountPush([], col[ci], k);
      PileCountUpdate(st.foundations, i, st.foundations[i] + [col[ci]], k);
      PileCountUpdate(st.tableau, si, rest, k);
    }
  }

  // ---------------------------------------------------------------------
  // Drawing
  // ---------------------------------------------------------------------

  /** The waste turned over into a new deck: reversed and face down. */
  function Recycled(w: Stack): (d: Stack)
    ensures |d| == |w|
  {
    seq(|w|, i requires 0 <= i < |w| => w[|w| - 1 - i].(faceUp := false))
  }

  /** A click on the deck: draw its top card face up onto the waste, or recycle the waste. */
  function DrawCard(st: Table): (r: Table)
    requires WellFormed(st)
    ensures WellFormed(r) && r.selected == None
  {
    if |st.deck| == 0 then
      st.(deck := Recycled(st.waste), waste := [], selected := None)
    else
      st.(deck := Pop(st.deck), waste := st.waste + [Top(st.deck).(faceUp := true)], selected := None)
  }

  /** Drawing keeps every card on the table. */
  lemma {:induction false} DrawKeepsCards(st: Table)
    requires WellFormed(st)
    ensures forall k :: OnTable(DrawCard(st), k) == OnTable(st, k)
  {
    forall k
      ensures OnTable(DrawCard(st), k) == OnTable(st, k)
    {
      if |st.deck| == 0 {
        CountReversed(Recycled(st.waste), st.waste, k);
      } else {
        assert st.deck == Pop(st.deck) + [Top(st.deck)];
        CountPush(Pop(st.deck), Top(st.deck), k);
        CountPush(st.waste, Top(st.deck).(faceUp := true), k);
      }
    }
  }

  /** Drawing keeps the table Good: the waste stays face up. */
  lemma {:induction false} DrawKeepsGood(st: Table)
    requires Good(st)
    ensures Good(DrawCard(st))
  {
  }

  function DrawTimes(st: Table, k: nat): (r: Table)
    requires WellFormed(st)
    ensures WellFormed(r)
    decreases k
  {
    if k == 0 then st else DrawCard(DrawTimes(st, k - 1))
  }

  /** k draws from a full deck put its top k cards, face up, on the waste in drawing order. */
  lemma {:induction false} DrawsMoveTopCards(st: Table, k: nat)
    requires WellFormed(st) && st.waste == [] && k <= |st.deck|
    ensures DrawTimes(st, k).deck == st.deck[..|st.deck| - k]
    ensures |DrawTimes(st, k).waste| == k
    ensures forall i :: 0 <= i < k ==> DrawTimes(st, k).waste[i] == st.deck[|st.deck| - 1 - i].(faceUp := true)
  {
    if k > 0 {
      DrawsMoveTopCards(st, k - 1);
    }
  }

  /**
   * Drawing through a face-down deck and clicking once more on the empty
   * deck restores the deck exactly, in its original order.
   */
  lemma {:induction false} DrawCycleRestoresDeck(st: Table)
    requires WellFormed(st) && st.waste == [] && forall i :: 0 <= i < |st.deck| ==> !st.deck[i].faceUp
    ensures var r := DrawTimes(st, |st.deck| + 1);
      r.deck == st.deck && r.waste == [] && r.foundations == st.foundations && r.tableau == st.tableau
  {
    var n := |st.deck|;
    DrawsMoveTopCards(st, n);
    var mid := DrawTimes(st, n);
    DrawsKeepOtherZones(st, n);
    assert mid.deck == st.deck[..0];
    var d := Recycled(mid.waste);
    forall i | 0 <= i < n
      ensures d[i] == st.deck[i]
    {
      assert d[i] == mid.waste[n - 1 - i].(faceUp := false);
    }
    assert d == st.deck;
    assert DrawTimes(st, n + 1) == DrawCard(mid);
  }

  lemma {:induction false} DrawsKeepOtherZones(st: Table, k: nat)
    requires WellFormed(st)
    ensures DrawTimes(st, k).foundations == st.foundations && DrawTimes(st, k).tableau == st.tableau
  {
    if k > 0 {
      DrawsKeepOtherZones(st, k - 1);
    }
  }

  // ---------------------------------------------------------------------
  // A new game
  // ---------------------------------------------------------------------

  /** Deal a new game from a freshly shuffled deck. */
  method NewGame(picks: seq<nat>) returns (st: Table)
    requires |picks| == 52
    ensures Good(st) && st.selected == None && st.waste == [] && |st.deck| == 24
    ensures st.foundations == [[], [], [], []]
    ensures forall i :: 0 <= i < 7 ==> |st.tableau[i]| == i + 1
    ensures forall i, j :: 0 <= i < 7 && 0 <= j <= i ==> (st.tableau[i][j].faceUp <==> j == i)
    ensures forall k :: OnTable(st, k) == if 1 <= k.1 <= 13 then 1 else 0
  {
    var d := CreateDeck(picks);
    var deck, tableau := Deal(d);
    st := Table(deck, [], [[], [], [], []], tableau, None);
    ShuffledDeckIsComplete(d);
    forall i | 0 <= i < 7
      ensures |tableau[i]| == i + 1 && forall j :: 0 <= j <= i ==> (tableau[i][j].faceUp <==> j == i)
    {
      DealShape(d, i);
    }
    forall k
      ensures OnTable(st, k) == if 1 <= k.1 <= 13 then 1 else 0
    {
      DealKeepsCards(d, tableau, k);
      PileCountOfEmpties(st.foundations, k);
      CountOfSameMultiset(d, OrderedDeck(), k);
      OrderedDeckCounts(k);
    }
  }

  lemma {:induction false} PileCountOfEmpties(cols: seq<Stack>, k: (Suit, int))
    requires forall i :: 0 <= i < |cols| ==> cols[i] == []
    ensures PileCount(cols, k) == 0
  {
    if |cols| > 0 {
      PileCountOfEmpties(cols[..|cols| - 1], k);
    }
  }
}
