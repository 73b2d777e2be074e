/**
 * The showdown of `pick_winners`: every player still in the hand gets a combination
 * (a kind and five cards), the combinations are sorted best first, and the winners
 * are the players of the leading run of equal combinations.
 */
module Showdown {
  import opened Cards
  import opened Poker
  import Sorting

  datatype ComboKind = High | Pair | TwoPair | ThreeOfAKind | Straight | Flush | Full | FourOfAKind | StraightFlush | RoyalFlush

  /** The position of a kind in its enumeration, weakest first. */
  function KindIndex(k: ComboKind): (n: nat)
    ensures n < 10
  {
    match k
    case High => 0
    case Pair => 1
    case TwoPair => 2
    case ThreeOfAKind => 3
    case Straight => 4
    case Flush => 5
    case Full => 6
    case FourOfAKind => 7
    case StraightFlush => 8
    case RoyalFlush => 9
  }

  datatype Combo = Combo(kind: ComboKind, cards: seq<Card>, playerIdx: nat)

  /** A combination holds five cards. */
  predicate Shaped(c: Combo) {
    |c.cards| == 5
  }

  function Values(cs: seq<Card>): (r: seq<nat>)
    ensures |r| == |cs| && forall i :: 0 <= i < |cs| ==> r[i] == cs[i].value
  {
    seq(|cs|, i requires 0 <= i < |cs| => cs[i].value)
  }

  // ---------------------------------------------------------------------------
  // Comparison

  /** `std::lexicographical_compare` of two value sequences. */
  function LexLess(xs: seq<nat>, ys: seq<nat>): bool {
    if xs == [] then ys != []
    else if ys == [] then false
    else if xs[0] < ys[0] then true
    else if ys[0] < xs[0] then false
    else LexLess(xs[1..], ys[1..])
  }

  /** `Combo::operator==`: same kind and the same value card by card (colours ignored). */
  predicate Same(a: Combo, b: Combo)
    requires Shaped(a) && Shaped(b)
  {
    a.kind == b.kind && forall i :: 0 <= i < 5 ==> a.cards[i].value == b.cards[i].value
  }

  /** `Combo::operator<`: the weaker kind, or the same kind and lexicographically lower cards. */
  predicate Less(a: Combo, b: Combo) {
    KindIndex(a.kind) < KindIndex(b.kind) ||
    (KindIndex(a.kind) == KindIndex(b.kind) && LexLess(Values(a.cards), Values(b.cards)))
  }

  /** `Combo::operator>`: the stronger kind, or the same kind and lexicographically higher cards. */
  predicate Greater(a: Combo, b: Combo) {
    KindIndex(a.kind) > KindIndex(b.kind) ||
    (KindIndex(a.kind) == KindIndex(b.kind) && LexLess(Values(b.cards), Values(a.cards)))
  }

  method SameCombo(a: Combo, b: Combo) returns (r: bool)
    requires Shaped(a) && Shaped(b)
    ensures r == Same(a, b)
  {
    if a.kind != b.kind {
      return false;
    }
    for i := 0 to 5
      invariant forall q :: 0 <= q < i ==> a.cards[q].value == b.cards[q].value
    {
      if a.cards[i].value != b.cards[i].value {
        return false;
      }
    }
    return true;
  }

  function Pow13(n: nat): (p: nat)
    ensures p > 0
  {
    if n == 0 then 1 else 13 * Pow13(n - 1)
  }

  /** A value sequence read as a number in base 13, first value most significant. */
  function Encode(xs: seq<nat>): nat {
    if xs == [] then 0 else xs[0] * Pow13(|xs| - 1) + Encode(xs[1..])
  }

  predicate Digits(xs: seq<nat>) {
    forall i :: 0 <= i < |xs| ==> xs[i] < 13
  }

  lemma {:induction false} EncodeBound(xs: seq<nat>)
    requires Digits(xs)
    ensures Encode(xs) < Pow13(|xs|)
  {
    if xs != [] {
      EncodeBound(xs[1..]);
      var p := Pow13(|xs| - 1);
      MulLe(xs[0], 12, p);
      assert Pow13(|xs|) == 12 * p + p;
    }
  }

  lemma MulLe(a: nat, b: nat, p: nat)
    requires a <= b
    ensures a * p <= b * p
  {
    assert b * p == a * p + (b - a) * p;
  }

  lemma LeadDigit(x: nat, y: nat, p: nat, a: nat, b: nat)
    requires x < y && a < p
    ensures x * p + a < y * p + b
  {
    MulLe(x + 1, y, p);
    assert (x + 1) * p == x * p + p;
  }

  /** The base-13 reading embeds the lexicographic order of equally long sequences. */
  lemma {:induction false} LexEncode(xs: seq<nat>, ys: seq<nat>)
    requires |xs| == |ys| && Digits(xs) && Digits(ys)
    ensures LexLess(xs, ys) <==> Encode(xs) < Encode(ys)
    ensures xs == ys <==> Encode(xs) == Encode(ys)
  {
    if xs != [] {
      var p := Pow13(|xs| - 1);
      EncodeBound(xs[1..]);
      EncodeBound(ys[1..]);
      if xs[0] < ys[0] {
        LeadDigit(xs[0], ys[0], p, Encode(xs[1..]), Encode(ys[1..]));
      } else if ys[0] < xs[0] {
        LeadDigit(ys[0], xs[0], p, Encode(ys[1..]), Encode(xs[1..]));
      } else {
        LexEncode(xs[1..], ys[1..]);
        if xs[1..] == ys[1..] {
          assert xs == [xs[0]] + xs[1..] && ys == [ys[0]] + ys[1..];
        }
      }
    }
  }

  /** A combination as one number: its kind, then its five values in base 13. */
  function Rank(c: Combo): nat {
    KindIndex(c.kind) * Pow13(5) + Encode(Values(c.cards))
  }

  /** The three comparisons of combinations are the order of their ranks. */
  lemma RankOrder(a: Combo, b: Combo)
    requires Shaped(a) && Shaped(b)
    ensures Greater(a, b) <==> Rank(a) > Rank(b)
    ensures Less(a, b) <==> Rank(a) < Rank(b)
    ensures Same(a, b) <==> Rank(a) == Rank(b)
  {
    var va, vb := Values(a.cards), Values(b.cards);
    LexEncode(va, vb);
    LexEncode(vb, va);
    EncodeBound(va);
    EncodeBound(vb);
    var p := Pow13(5);
    if KindIndex(a.kind) < KindIndex(b.kind) {
      LeadDigit(KindIndex(a.kind), KindIndex(b.kind), p, Encode(va), Encode(vb));
    } else if KindIndex(b.kind) < KindIndex(a.kind) {
      LeadDigit(KindIndex(b.kind), KindIndex(a.kind), p, Encode(vb), Encode(va));
    } else {
      assert a.kind == b.kind;
      assert (forall i :: 0 <= i < 5 ==> a.cards[i].value == b.cards[i].value) <==> va == vb;
    }
  }

  /** Exactly one of `<`, `==` and `>` holds between two combinations. */
  lemma Trichotomy(a: Combo, b: Combo)
    requires Shaped(a) && Shaped(b)
    ensures Less(a, b) || Same(a, b) || Greater(a, b)
    ensures !(Less(a, b) && Same(a, b)) && !(Less(a, b) && Greater(a, b)) && !(Same(a, b) && Greater(a, b))
    ensures Greater(a, b) <==> Less(b, a)
  {
    RankOrder(a, b);
    RankOrder(b, a);
  }

  // ---------------------------------------------------------------------------
  // Classification

  /** The kind the chain of tests in `pick_winners` settles on. The royal flush, the
      straight flush and the flush never come out, their tests never holding. */
  function KindOf(hand: seq<Card>): (k: ComboKind)
    requires |hand| == 7
    ensures k != Flush && k != StraightFlush && k != RoyalFlush
  {
    if HasFourOfAKind(hand) then FourOfAKind
    else if HasFull(hand) then Full
    else if HasStraight(hand) then Straight
    else if HasThreeOfAKind(hand) then ThreeOfAKind
    else if HasTwoPair(hand) then TwoPair
    else if HasPair(hand) then Pair
    else High
  }

  method Classify(hand: seq<Card>) returns (kind: ComboKind)
    requires |hand| == 7
    ensures kind == KindOf(hand)
  {
    var royal := TestRoyalFlush(hand);
    var straightFlush := TestStraightFlush(hand);
    var four := TestFourOfAKind(hand);
    var full := TestFull(hand);
    var flush := TestFlush(hand);
    var straight := TestStraight(hand);
    var three := TestThreeOfAKind(hand);
    var twoPair := TestTwoPair(hand);
    var pair := TestPair(hand);
    if royal {
      kind := RoyalFlush;
    } else if straightFlush {
      kind := StraightFlush;
    } else if four {
      kind := FourOfAKind;
    } else if full {
      kind := Full;
    } else if flush {
      kind := Flush;
    } else if straight {
      kind := Straight;
    } else if three {
      kind := ThreeOfAKind;
    } else if twoPair {
      kind := TwoPair;
    } else if pair {
      kind := Pair;
    } else {
      kind := High;
    }
  }

  /** Every kind the chain tests before the pair implies a pair. */
  lemma RepeatsArePairs(hand: seq<Card>)
    requires |hand| == 7
    ensures HasFourOfAKind(hand) || HasFull(hand) || HasThreeOfAKind(hand) || HasTwoPair(hand) ==> HasPair(hand)
  {
    if HasFourOfAKind(hand) {
      var i :| 0 <= i < 4 && AllColors(hand, hand[i].value);
      InCount(hand, Card(Club, hand[i].value));
      InCount(hand, Card(Diamond, hand[i].value));
      assert Copies(hand, hand[i].value) >= 2;
    } else if HasFull(hand) {
      var i :| 0 <= i < 6 && Copies(hand, hand[i].value) == 2;
    } else if HasThreeOfAKind(hand) {
      var i :| 0 <= i < 5 && Copies(hand, hand[i].value) >= 3;
    } else if HasTwoPair(hand) {
      TwoPairHasPair(hand);
    }
  }

  /** The high card is exactly a hand with seven different values that is no straight. */
  lemma HighCardExact(hand: seq<Card>)
    requires |hand| == 7
    ensures KindOf(hand) == High <==> (forall v: Value :: CountValue(hand, v) <= 1) && !HasStraight(hand)
  {
    PairExact(hand);
    RepeatsArePairs(hand);
  }

  /** The hand of two three-of-a-kinds: three sevens, three kings and a two. */
  const TwoTrips := [Card(Spade, 5), Card(Heart, 5), Card(Diamond, 5), Card(Spade, King), Card(Heart, King), Card(Diamond, King), Card(Club, 0)]

  /** The hand holds three sevens and three kings. */
  lemma TripsCounted()
    ensures CountValue(TwoTrips, 5) == 3 && CountValue(TwoTrips, King) == 3
  {
    var hand := TwoTrips;
    forall k | 0 < k <= 7 ensures hand[..k][..k - 1] == hand[..k - 1] { }
    assert CountValue(hand[..1], 5) == 1 && CountValue(hand[..1], King) == 0;
    assert CountValue(hand[..2], 5) == 2 && CountValue(hand[..2], King) == 0;
    assert CountValue(hand[..3], 5) == 3 && CountValue(hand[..3], King) == 0;
    assert CountValue(hand[..4], 5) == 3 && CountValue(hand[..4], King) == 1;
    assert CountValue(hand[..5], 5) == 3 && CountValue(hand[..5], King) == 2;
    assert CountValue(hand[..6], 5) == 3 && CountValue(hand[..6], King) == 3;
    assert hand[..7] == hand;
  }

  /** No value of the hand is there in all four colours. */
  lemma TripsNoFour()
    ensures !HasFourOfAKind(TwoTrips)
  {
    assert Card(Club, 5) !in TwoTrips && Card(Club, King) !in TwoTrips;
  }

  /** Neither a seven nor a two is followed by the next value. */
  lemma TripsNoStraight()
    ensures !HasStraight(TwoTrips)
  {
    assert !ValuePresent(TwoTrips, 6) && !ValuePresent(TwoTrips, 1);
    assert Successor(5, 0) == 6 && Successor(0, 0) == 1;
  }

  /**
   * Two values held three times each are no full house: the full house test asks for a
   * value held exactly twice, so the hand falls through to a three of a kind.
   */
  lemma TwoTripsMissed()
    ensures CountValue(TwoTrips, 5) == 3 && CountValue(TwoTrips, King) == 3
    ensures !HasFull(TwoTrips) && KindOf(TwoTrips) == ThreeOfAKind
  {
    TripsCounted();
    CopiesCountValue(TwoTrips, 5);
    CopiesCountValue(TwoTrips, King);
    TripsNoFour();
    TripsNoStraight();
    assert forall i :: 0 <= i < 6 ==> TwoTrips[i].value in {5, King};
    assert Copies(TwoTrips, TwoTrips[0].value) == 3;
  }

  /** The sort key of a card: its value. */
  function CardKey(c: Card): real {
    c.value as real
  }

  /** The five cards a combination keeps: the highest of the hand. */
  function TopFive(hand: seq<Card>): (r: seq<Card>)
    requires |hand| == 7
    ensures |r| == 5
  {
    Sorting.SortDescending(hand, CardKey)[..5]
  }

  /** The five cards kept are cards of the hand, highest first, and none of the two
      left out is higher than the fifth. */
  lemma TopFiveHighest(hand: seq<Card>)
    requires |hand| == 7
    ensures multiset(TopFive(hand)) <= multiset(hand)
    ensures forall i, j :: 0 <= i < j < 5 ==> TopFive(hand)[i].value >= TopFive(hand)[j].value
    ensures forall c :: c in multiset(hand) - multiset(TopFive(hand)) ==> c.value <= TopFive(hand)[4].value
  {
    var sorted := Sorting.SortDescending(hand, CardKey);
    assert sorted == sorted[..5] + sorted[5..];
    assert multiset(sorted) == multiset(sorted[..5]) + multiset(sorted[5..]);
    forall c | c in multiset(hand) - multiset(TopFive(hand)) ensures c.value <= TopFive(hand)[4].value {
      assert c in multiset(sorted[5..]);
      var j :| 0 <= j < |sorted[5..]| && sorted[5..][j] == c;
      assert CardKey(sorted[4]) >= CardKey(sorted[5 + j]);
    }
    forall i, j | 0 <= i < j < 5 ensures TopFive(hand)[i].value >= TopFive(hand)[j].value {
      assert CardKey(sorted[i]) >= CardKey(sorted[j]);
    }
  }

  // ---------------------------------------------------------------------------
  // Winners

  /** Every player holds two cards. */
  predicate Dealt(players: seq<Player>) {
    forall q :: 0 <= q < |players| ==> |players[q].hand| == 2
  }

  /** The combination of player `q`: its two cards and the board. */
  function ComboOf(players: seq<Player>, board: seq<Card>, q: nat): (c: Combo)
    requires q < |players| && Dealt(players) && |board| == 5
    ensures Shaped(c) && c.playerIdx == q
  {
    var hand := players[q].hand + board;
    Combo(KindOf(hand), TopFive(hand), q)
  }

  /** Every player's combination, by player number. */
  function CombosTable(players: seq<Player>, board: seq<Card>): (t: seq<Combo>)
    requires Dealt(players) && |board| == 5
  {
    seq(|players|, q requires 0 <= q < |players| => ComboOf(players, board, q))
  }

  /** The entries of `table` for the players below `n` that have not folded, in player order. */
  function Pick(table: seq<Combo>, players: seq<Player>, n: nat): (r: seq<Combo>)
    requires n <= |players| == |table|
  {
    if n == 0 then []
    else
      var before := Pick(table, players, n - 1);
      if players[n - 1].folded then before else before + [table[n - 1]]
  }

  /** Entry `q` of the table is about player `q`. */
  predicate Indexed(table: seq<Combo>) {
    forall q :: 0 <= q < |table| ==> table[q].playerIdx == q
  }

  lemma {:induction false} PickOwned(table: seq<Combo>, players: seq<Player>, n: nat)
    requires n <= |players| == |table| && Indexed(table)
    ensures forall i :: 0 <= i < |Pick(table, players, n)| ==>
      var c := Pick(table, players, n)[i];
      c.playerIdx < n && !players[c.playerIdx].folded && c == table[c.playerIdx]
  {
    if n > 0 {
      PickOwned(table, players, n - 1);
    }
  }

  lemma {:induction false} PickAscending(table: seq<Combo>, players: seq<Player>, n: nat)
    requires n <= |players| == |table| && Indexed(table)
    ensures forall i, j :: 0 <= i < j < |Pick(table, players, n)| ==>
      Pick(table, players, n)[i].playerIdx < Pick(table, players, n)[j].playerIdx
  {
    if n > 0 {
      PickAscending(table, players, n - 1);
      PickOwned(table, players, n - 1);
    }
  }

  lemma {:induction false} PickCover(table: seq<Combo>, players: seq<Player>, n: nat)
    requires n <= |players| == |table|
    ensures forall q :: 0 <= q < n && !players[q].folded ==> table[q] in Pick(table, players, n)
  {
    if n > 0 {
      PickCover(table, players, n - 1);
    }
  }

  /** The combinations of the players below `n` that have not folded, in player order. */
  function CombosOf(players: seq<Player>, board: seq<Card>, n: nat): (r: seq<Combo>)
    requires n <= |players| && Dealt(players) && |board| == 5
  {
    Pick(CombosTable(players, board), players, n)
  }

  /** Each listed combination belongs to its player, who is below `n` and has not folded. */
  lemma CombosOfOwned(players: seq<Player>, board: seq<Card>, n: nat)
    requires n <= |players| && Dealt(players) && |board| == 5
    ensures forall i :: 0 <= i < |CombosOf(players, board, n)| ==>
      var c := CombosOf(players, board, n)[i];
      c.playerIdx < n && !players[c.playerIdx].folded && c == ComboOf(players, board, c.playerIdx)
  {
    PickOwned(CombosTable(players, board), players, n);
  }

  /** Players are listed in increasing order. */
  lemma CombosOfAscending(players: seq<Player>, board: seq<Card>, n: nat)
    requires n <= |players| && Dealt(players) && |board| == 5
    ensures forall i, j :: 0 <= i < j < |CombosOf(players, board, n)| ==>
      CombosOf(players, board, n)[i].playerIdx < CombosOf(players, board, n)[j].playerIdx
  {
    PickAscending(CombosTable(players, board), players, n);
  }

  /** Every player below `n` still in is listed. */
  lemma CombosOfCover(players: seq<Player>, board: seq<Card>, n: nat)
    requires n <= |players| && Dealt(players) && |board| == 5
    ensures forall q :: 0 <= q < n && !players[q].folded ==> ComboOf(players, board, q) in CombosOf(players, board, n)
  {
    PickCover(CombosTable(players, board), players, n);
  }

  function RankKey(c: Combo): real {
    Rank(c) as real
  }

  /** The end of the leading run of equal neighbours, looking from position `i`. */
  function RunEnd(cs: seq<Combo>, i: nat): (e: nat)
    requires 1 <= i <= |cs| && forall k :: 0 <= k < |cs| ==> Shaped(cs[k])
    ensures i <= e <= |cs|
    ensures forall k :: i <= k < e ==> Same(cs[k], cs[k - 1])
    ensures e < |cs| ==> !Same(cs[e], cs[e - 1])
    decreases |cs| - i
  {
    if i == |cs| || !Same(cs[i], cs[i - 1]) then i else RunEnd(cs, i + 1)
  }

  /** The winner loop of `pick_winners`: the player of the first combination, then the
      player of each next one as long as it equals the one before. */
  method LeadingWinners(sorted: seq<Combo>) returns (winners: seq<nat>)
    requires |sorted| > 0 && forall k :: 0 <= k < |sorted| ==> Shaped(sorted[k])
    ensures |winners| == RunEnd(sorted, 1)
    ensures forall i :: 0 <= i < |winners| ==> winners[i] == sorted[i].playerIdx
  {
    winners := [sorted[0].playerIdx];
    for i := 1 to |sorted|
      invariant |winners| == i && forall k :: 0 <= k < i ==> winners[k] == sorted[k].playerIdx
      invariant RunEnd(sorted, i) == RunEnd(sorted, 1)
    {
      var same := SameCombo(sorted[i], sorted[i - 1]);
      if !same {
        return;
      }
      winners := winners + [sorted[i].playerIdx];
    }
  }

  /** In a list sorted best first, the leading run of equal neighbours is exactly the
      combinations as good as the first. */
  lemma RunIsBest(cs: seq<Combo>)
    requires |cs| > 0 && forall k :: 0 <= k < |cs| ==> Shaped(cs[k])
    requires Sorting.Descending(cs, RankKey)
    ensures forall i :: 0 <= i < |cs| ==> (i < RunEnd(cs, 1) <==> Rank(cs[i]) == Rank(cs[0]))
  {
    var e := RunEnd(cs, 1);
    var k := 1;
    while k < e
      invariant 1 <= k <= e && forall q :: 0 <= q < k ==> Rank(cs[q]) == Rank(cs[0])
    {
      RankOrder(cs[k], cs[k - 1]);
      k := k + 1;
    }
    if e < |cs| {
      RankOrder(cs[e], cs[e - 1]);
      assert RankKey(cs[0]) >= RankKey(cs[e]);
      forall i | e <= i < |cs| ensures Rank(cs[i]) < Rank(cs[0]) {
        assert RankKey(cs[e]) >= RankKey(cs[i]) || i == e;
      }
    }
  }

  /** An element at two different places is counted twice. */
  lemma TwiceCounted<T>(s: seq<T>, i: nat, j: nat)
    requires i < j < |s| && s[i] == s[j]
    ensures multiset(s)[s[i]] >= 2
  {
    assert s == s[..j] + [s[j]] + s[j + 1..];
    assert s[i] in multiset(s[..j]);
  }

  /** A list without repeated player numbers counts each combination once at most. */
  lemma {:induction false} OnceCounted(s: seq<Combo>, c: Combo)
    requires forall i, j :: 0 <= i < j < |s| ==> s[i].playerIdx < s[j].playerIdx
    ensures multiset(s)[c] <= 1
  {
    if s != [] {
      var init := s[..|s| - 1];
      OnceCounted(init, c);
      assert s == init + [s[|s| - 1]];
    }
  }

  /**
   * `pick_winners`: the players who have not folded, each with a combination; the
   * combinations sorted best first; the players of the leading run of equal
   * combinations. The winners are exactly the players still in whose combination no
   * other player's is `>` to, each listed once.
   */
  method PickWinners(players: seq<Player>, board: seq<Card>) returns (winners: seq<nat>)
    requires Dealt(players) && |board| == 5
    requires exists q :: 0 <= q < |players| && !players[q].folded
    ensures |winners| > 0
    ensures forall i, j :: 0 <= i < j < |winners| ==> winners[i] != winners[j]
    ensures forall p: nat :: p in winners <==> Best(players, board, p)
  {
    var combos := BuildCombos(players, board);
    var sorted := Sorting.SortDescending(combos, RankKey);
    CombosOfCover(players, board, |players|);
    var q0 :| 0 <= q0 < |players| && !players[q0].folded;
    assert ComboOf(players, board, q0) in multiset(sorted);
    SortedFacts(players, board, combos, sorted);
    winners := LeadingWinners(sorted);
    RunIsBest(sorted);
    WinnersDistinct(players, board, combos, sorted, winners);
    WinnersExact(players, board, combos, sorted, winners);
  }

  /** The combination loop of `pick_winners`: one combination per player still in, in
      player order. */
  method BuildCombos(players: seq<Player>, board: seq<Card>) returns (combos: seq<Combo>)
    requires Dealt(players) && |board| == 5
    ensures combos == CombosOf(players, board, |players|)
  {
    combos := [];
    ghost var table := CombosTable(players, board);
    for i := 0 to |players|
      invariant combos == Pick(table, players, i)
    {
      if !players[i].folded {
        var c := ComboFor(players, board, i);
        assert table[i] == c;
        combos := combos + [c];
      }
    }
  }

  /** The combination of player `i`: the kind its seven cards make and the five kept. */
  method ComboFor(players: seq<Player>, board: seq<Card>, i: nat) returns (c: Combo)
    requires Dealt(players) && |board| == 5 && i < |players|
    ensures c == ComboOf(players, board, i)
  {
    var hand := players[i].hand + board;
    var kind := Classify(hand);
    c := Combo(kind, TopFive(hand), i);
  }

  /** The winners are exactly the best players. */
  lemma WinnersExact(players: seq<Player>, board: seq<Card>, combos: seq<Combo>, sorted: seq<Combo>, winners: seq<nat>)
    requires Showdown(players, board, combos, sorted)
    requires |winners| == RunEnd(sorted, 1) && forall i :: 0 <= i < |winners| ==> winners[i] == sorted[i].playerIdx
    requires forall i :: 0 <= i < |sorted| ==> (i < RunEnd(sorted, 1) <==> Rank(sorted[i]) == Rank(sorted[0]))
    ensures forall p: nat :: p in winners <==> Best(players, board, p)
  {
    forall p: nat ensures p in winners <==> Best(players, board, p) {
      if p in winners {
        WinnerIsBest(players, board, combos, sorted, winners, p);
      }
      if Best(players, board, p) {
        BestIsWinner(players, board, combos, sorted, winners, p);
      }
    }
  }

  /** Player `p` is still in and no other player still in holds a greater combination. */
  predicate Best(players: seq<Player>, board: seq<Card>, p: nat)
    requires Dealt(players) && |board| == 5
  {
    p < |players| && !players[p].folded &&
    forall q :: 0 <= q < |players| && !players[q].folded ==> !Greater(ComboOf(players, board, q), ComboOf(players, board, p))
  }

  /** What the proofs below need of the combinations and of their sorted copy. */
  ghost predicate Showdown(players: seq<Player>, board: seq<Card>, combos: seq<Combo>, sorted: seq<Combo>)
  {
    Dealt(players) && |board| == 5 &&
    combos == CombosOf(players, board, |players|) && |sorted| > 0 &&
    multiset(sorted) == multiset(combos) && Sorting.Descending(sorted, RankKey) &&
    (forall k :: 0 <= k < |sorted| ==> Shaped(sorted[k])) &&
    (forall k :: 0 <= k < |sorted| ==>
      sorted[k].playerIdx < |players| && !players[sorted[k].playerIdx].folded &&
      sorted[k] == ComboOf(players, board, sorted[k].playerIdx)) &&
    (forall q :: 0 <= q < |players| && !players[q].folded ==> ComboOf(players, board, q) in multiset(sorted))
  }

  lemma SortedFacts(players: seq<Player>, board: seq<Card>, combos: seq<Combo>, sorted: seq<Combo>)
    requires Dealt(players) && |board| == 5
    requires combos == CombosOf(players, board, |players|) && |sorted| > 0
    requires multiset(sorted) == multiset(combos) && Sorting.Descending(sorted, RankKey)
    ensures Showdown(players, board, combos, sorted)
  {
    CombosOfOwned(players, board, |players|);
    CombosOfCover(players, board, |players|);
    forall k | 0 <= k < |sorted|
      ensures sorted[k].playerIdx < |players| && !players[sorted[k].playerIdx].folded
      ensures sorted[k] == ComboOf(players, board, sorted[k].playerIdx)
    {
      assert sorted[k] in multiset(combos);
      var i :| 0 <= i < |combos| && combos[i] == sorted[k];
    }
  }

  lemma WinnersDistinct(players: seq<Player>, board: seq<Card>, combos: seq<Combo>, sorted: seq<Combo>, winners: seq<nat>)
    requires Showdown(players, board, combos, sorted)
    requires |winners| <= |sorted| && forall i :: 0 <= i < |winners| ==> winners[i] == sorted[i].playerIdx
    ensures forall i, j :: 0 <= i < j < |winners| ==> winners[i] != winners[j]
  {
    CombosOfAscending(players, board, |players|);
    forall i, j | 0 <= i < j < |winners| ensures winners[i] != winners[j] {
      SortedDistinct(combos, sorted, i, j);
      assert sorted[i] == ComboOf(players, board, winners[i]);
      assert sorted[j] == ComboOf(players, board, winners[j]);
    }
  }

  /** A permutation of a list without repeated player numbers holds no combination twice. */
  lemma SortedDistinct(combos: seq<Combo>, sorted: seq<Combo>, i: nat, j: nat)
    requires forall a, b :: 0 <= a < b < |combos| ==> combos[a].playerIdx < combos[b].playerIdx
    requires multiset(sorted) == multiset(combos) && i < j < |sorted|
    ensures sorted[i] != sorted[j]
  {
    if sorted[i] == sorted[j] {
      TwiceCounted(sorted, i, j);
      OnceCounted(combos, sorted[i]);
    }
  }

  lemma WinnerIsBest(players: seq<Player>, board: seq<Card>, combos: seq<Combo>, sorted: seq<Combo>, winners: seq<nat>, p: nat)
    requires Showdown(players, board, combos, sorted)
    requires |winners| == RunEnd(sorted, 1) && forall i :: 0 <= i < |winners| ==> winners[i] == sorted[i].playerIdx
    requires forall i :: 0 <= i < |sorted| ==> (i < RunEnd(sorted, 1) <==> Rank(sorted[i]) == Rank(sorted[0]))
    requires p in winners
    ensures Best(players, board, p)
  {
    var i :| 0 <= i < |winners| && winners[i] == p;
    assert sorted[i] == ComboOf(players, board, p);
    forall q | 0 <= q < |players| && !players[q].folded ensures !Greater(ComboOf(players, board, q), ComboOf(players, board, p)) {
      var c := ComboOf(players, board, q);
      var j :| 0 <= j < |sorted| && sorted[j] == c;
      assert RankKey(sorted[0]) >= RankKey(sorted[j]) || j == 0;
      RankOrder(c, sorted[i]);
    }
  }

  lemma BestIsWinner(players: seq<Player>, board: seq<Card>, combos: seq<Combo>, sorted: seq<Combo>, winners: seq<nat>, p: nat)
    requires Showdown(players, board, combos, sorted)
    requires |winners| == RunEnd(sorted, 1) && forall i :: 0 <= i < |winners| ==> winners[i] == sorted[i].playerIdx
    requires forall i :: 0 <= i < |sorted| ==> (i < RunEnd(sorted, 1) <==> Rank(sorted[i]) == Rank(sorted[0]))
    requires Best(players, board, p)
    ensures p in winners
  {
    var c := ComboOf(players, board, p);
    var i :| 0 <= i < |sorted| && sorted[i] == c;
    var top := sorted[0];
    assert !Greater(ComboOf(players, board, top.playerIdx), c);
    RankOrder(top, c);
    assert RankKey(sorted[0]) >= RankKey(sorted[i]) || i == 0;
    assert winners[i] == p;
  }
}
