/**
 * Cards and the hand tests of `pick_winners`: each test looks at a seven-card hand
 * (two private cards and the five of the board) and answers one question about it.
 */
module Cards {

  datatype Color = Spade | Heart | Diamond | Club

  /** The position of a colour in its enumeration. */
  function ColorIndex(c: Color): (k: nat)
    ensures k < 4
  {
    match c
    case Spade => 0
    case Heart => 1
    case Diamond => 2
    case Club => 3
  }

  /** Card values `Two = 0` up to `As = 12`. */
  type Value = v: nat | v < 13

  const Ten: Value := 8
  const Jacket: Value := 9
  const Queen: Value := 10
  const King: Value := 11
  const As: Value := 12

  datatype Card = Card(color: Color, value: Value)

  /** The largest `size_t`, which an ace becomes when a straight is looked for. */
  const SizeMax: nat := 0xFFFF_FFFF_FFFF_FFFF

  // ---------------------------------------------------------------------------
  // Counting

  /** How many cards of `s` equal `c` (colour and value), as `std::count` counts. */
  function Count(s: seq<Card>, c: Card): (n: nat)
    ensures n <= |s|
  {
    if s == [] then 0 else Count(s[..|s| - 1], c) + if s[|s| - 1] == c then 1 else 0
  }

  /** How many cards of `s` have value `v`, whatever their colour. */
  function CountValue(s: seq<Card>, v: Value): (n: nat)
    ensures n <= |s|
  {
    if s == [] then 0 else CountValue(s[..|s| - 1], v) + if s[|s| - 1].value == v then 1 else 0
  }

  /** The sum the tests compute for a value: one `std::count` per colour. */
  function Copies(s: seq<Card>, v: Value): nat {
    Count(s, Card(Club, v)) + Count(s, Card(Diamond, v)) + Count(s, Card(Heart, v)) + Count(s, Card(Spade, v))
  }

  /** Counting a value colour by colour is counting it. */
  lemma {:induction false} CopiesCountValue(s: seq<Card>, v: Value)
    ensures Copies(s, v) == CountValue(s, v)
  {
    if s != [] {
      var init, x := s[..|s| - 1], s[|s| - 1];
      CopiesCountValue(init, v);
      assert Count(s, Card(Club, v)) == Count(init, Card(Club, v)) + if x.color == Club && x.value == v then 1 else 0;
      assert Count(s, Card(Diamond, v)) == Count(init, Card(Diamond, v)) + if x.color == Diamond && x.value == v then 1 else 0;
      assert Count(s, Card(Heart, v)) == Count(init, Card(Heart, v)) + if x.color == Heart && x.value == v then 1 else 0;
      assert Count(s, Card(Spade, v)) == Count(init, Card(Spade, v)) + if x.color == Spade && x.value == v then 1 else 0;
    }
  }

  lemma {:induction false} InCount(s: seq<Card>, c: Card)
    requires c in s
    ensures Count(s, c) >= 1
  {
    if s[|s| - 1] != c {
      assert s == s[..|s| - 1] + [s[|s| - 1]];
      InCount(s[..|s| - 1], c);
    }
  }

  lemma {:induction false} PositiveWitness(s: seq<Card>, v: Value)
    requires CountValue(s, v) > 0
    ensures exists k :: 0 <= k < |s| && s[k].value == v
  {
    if s[|s| - 1].value != v {
      PositiveWitness(s[..|s| - 1], v);
      var k :| 0 <= k < |s| - 1 && s[..|s| - 1][k].value == v;
      assert s[k].value == v;
    }
  }

  /** A value held by more cards than there are after position `m` has a card before `m`. */
  lemma {:induction false} EarlyWitness(s: seq<Card>, v: Value, m: nat)
    requires m <= |s| && CountValue(s, v) > |s| - m
    ensures exists k :: 0 <= k < m && s[k].value == v
  {
    if |s| == m {
      PositiveWitness(s, v);
    } else {
      EarlyWitness(s[..|s| - 1], v, m);
      var k :| 0 <= k < m && s[..|s| - 1][k].value == v;
      assert s[k].value == v;
    }
  }

  /** Some card of `s` has value `v` (the `any_color` search of `test_straight`). */
  predicate ValuePresent(s: seq<Card>, v: nat) {
    exists k :: 0 <= k < |s| && s[k].value == v
  }

  // ---------------------------------------------------------------------------
  // Four of a kind

  /** All four cards of value `v` are in the hand. */
  predicate AllColors(hand: seq<Card>, v: Value) {
    Card(Club, v) in hand && Card(Diamond, v) in hand && Card(Heart, v) in hand && Card(Spade, v) in hand
  }

  /** `test_four_of_a_kind`: the value of one of the first four cards is there in every colour. */
  predicate HasFourOfAKind(hand: seq<Card>)
    requires |hand| == 7
  {
    exists i :: 0 <= i < 4 && AllColors(hand, hand[i].value)
  }

  method TestFourOfAKind(hand: seq<Card>) returns (r: bool)
    requires |hand| == 7
    ensures r == HasFourOfAKind(hand)
  {
    for i := 0 to 4
      invariant forall q :: 0 <= q < i ==> !AllColors(hand, hand[q].value)
    {
      var flag :=
        Card(Club, hand[i].value) in hand &&
        Card(Diamond, hand[i].value) in hand &&
        Card(Heart, hand[i].value) in hand &&
        Card(Spade, hand[i].value) in hand;
      if flag {
        return true;
      }
    }
    return false;
  }

  /** Looking at the first four cards only misses no four of a kind. */
  lemma FourOfAKindExact(hand: seq<Card>)
    requires |hand| == 7
    ensures HasFourOfAKind(hand) <==> exists v: Value :: AllColors(hand, v)
  {
    if v: Value :| AllColors(hand, v) {
      InCount(hand, Card(Club, v));
      InCount(hand, Card(Diamond, v));
      InCount(hand, Card(Heart, v));
      InCount(hand, Card(Spade, v));
      CopiesCountValue(hand, v);
      EarlyWitness(hand, v, 4);
    }
  }

  // ---------------------------------------------------------------------------
  // Three of a kind and pairs

  /** `test_three_of_a_kind`: the value of one of the first five cards is held three times. */
  predicate HasThreeOfAKind(hand: seq<Card>)
    requires |hand| == 7
  {
    exists i :: 0 <= i < 5 && Copies(hand, hand[i].value) >= 3
  }

  /** `test_pair`: the value of one of the first six cards is held twice. */
  predicate HasPair(hand: seq<Card>)
    requires |hand| == 7
  {
    exists i :: 0 <= i < 6 && Copies(hand, hand[i].value) >= 2
  }

  method TestThreeOfAKind(hand: seq<Card>) returns (r: bool)
    requires |hand| == 7
    ensures r == HasThreeOfAKind(hand)
  {
    for i := 0 to 5
      invariant forall q :: 0 <= q < i ==> Copies(hand, hand[q].value) < 3
    {
      var n :=
        Count(hand, Card(Club, hand[i].value)) +
        Count(hand, Card(Diamond, hand[i].value)) +
        Count(hand, Card(Heart, hand[i].value)) +
        Count(hand, Card(Spade, hand[i].value));
      if n >= 3 {
        return true;
      }
    }
    return false;
  }

  method TestPair(hand: seq<Card>) returns (r: bool)
    requires |hand| == 7
    ensures r == HasPair(hand)
  {
    for i := 0 to 6
      invariant forall q :: 0 <= q < i ==> Copies(hand, hand[q].value) < 2
    {
      var n :=
        Count(hand, Card(Club, hand[i].value)) +
        Count(hand, Card(Diamond, hand[i].value)) +
        Count(hand, Card(Heart, hand[i].value)) +
        Count(hand, Card(Spade, hand[i].value));
      if n >= 2 {
        return true;
      }
    }
    return false;
  }

  /** The bounded searches miss no three of a kind and no pair. */
  lemma ThreeOfAKindExact(hand: seq<Card>)
    requires |hand| == 7
    ensures HasThreeOfAKind(hand) <==> exists v: Value :: CountValue(hand, v) >= 3
  {
    if i :| 0 <= i < 5 && Copies(hand, hand[i].value) >= 3 {
      CopiesCountValue(hand, hand[i].value);
    }
    if v: Value :| CountValue(hand, v) >= 3 {
      EarlyWitness(hand, v, 5);
      var i :| 0 <= i < 5 && hand[i].value == v;
      CopiesCountValue(hand, v);
    }
  }

  lemma PairExact(hand: seq<Card>)
    requires |hand| == 7
    ensures HasPair(hand) <==> exists v: Value :: CountValue(hand, v) >= 2
  {
    if i :| 0 <= i < 6 && Copies(hand, hand[i].value) >= 2 {
      CopiesCountValue(hand, hand[i].value);
    }
    if v: Value :| CountValue(hand, v) >= 2 {
      EarlyWitness(hand, v, 6);
      var i :| 0 <= i < 6 && hand[i].value == v;
      CopiesCountValue(hand, v);
    }
  }

  // ---------------------------------------------------------------------------
  // Two pairs

  /** How many of the first `k` cards have a value held at least twice. */
  function PairMarks(hand: seq<Card>, k: nat): (n: nat)
    requires k <= |hand|
    ensures n <= k
  {
    if k == 0 then 0 else PairMarks(hand, k - 1) + if Copies(hand, hand[k - 1].value) >= 2 then 1 else 0
  }

  /** `test_two_pair`: more than two of the first six cards are paired (each pair is
      counted once per card). */
  predicate HasTwoPair(hand: seq<Card>)
    requires |hand| == 7
  {
    PairMarks(hand, 6) > 2
  }

  method TestTwoPair(hand: seq<Card>) returns (r: bool)
    requires |hand| == 7
    ensures r == HasTwoPair(hand)
  {
    var nPair := 0;
    for i := 0 to 6
      invariant nPair == PairMarks(hand, i) && nPair <= 2
    {
      var n :=
        Count(hand, Card(Club, hand[i].value)) +
        Count(hand, Card(Diamond, hand[i].value)) +
        Count(hand, Card(Heart, hand[i].value)) +
        Count(hand, Card(Spade, hand[i].value));
      if n >= 2 {
        nPair := nPair + 1;
      }
      if nPair > 2 {
        assert PairMarks(hand, i + 1) == nPair;
        assert PairMarks(hand, 6) >= PairMarks(hand, i + 1) by {
          MarksMonotone(hand, i + 1, 6);
        }
        return true;
      }
    }
    return false;
  }

  lemma {:induction false} MarksMonotone(hand: seq<Card>, j: nat, k: nat)
    requires j <= k <= |hand|
    ensures PairMarks(hand, j) <= PairMarks(hand, k)
  {
    if j < k {
      MarksMonotone(hand, j, k - 1);
    }
  }

  /** Cards among the first `k` whose value is `v` or `w`, two values held twice each,
      are all marked. */
  lemma {:induction false} MarksCover(hand: seq<Card>, v: Value, w: Value, k: nat)
    requires k <= |hand| && v != w && CountValue(hand, v) >= 2 && CountValue(hand, w) >= 2
    ensures PairMarks(hand, k) >= CountValue(hand[..k], v) + CountValue(hand[..k], w)
  {
    if k > 0 {
      MarksCover(hand, v, w, k - 1);
      assert hand[..k][..k - 1] == hand[..k - 1];
      CopiesCountValue(hand, hand[k - 1].value);
    }
  }

  /** Two different values held twice each are always recognised as two pairs. */
  lemma TwoPairComplete(hand: seq<Card>, v: Value, w: Value)
    requires |hand| == 7 && v != w && CountValue(hand, v) >= 2 && CountValue(hand, w) >= 2
    ensures HasTwoPair(hand)
  {
    MarksCover(hand, v, w, 6);
    assert hand[..7][..6] == hand[..6];
    assert hand[..7] == hand;
  }

  /** Cards among the first `k` whose value is `v`, a value held twice, are all marked. */
  lemma {:induction false} MarksCoverOne(hand: seq<Card>, v: Value, k: nat)
    requires k <= |hand| && CountValue(hand, v) >= 2
    ensures PairMarks(hand, k) >= CountValue(hand[..k], v)
  {
    if k > 0 {
      MarksCoverOne(hand, v, k - 1);
      assert hand[..k][..k - 1] == hand[..k - 1];
      CopiesCountValue(hand, hand[k - 1].value);
    }
  }

  /** When `v` is the only value held twice, only cards of value `v` are marked. */
  lemma {:induction false} MarksOneValue(hand: seq<Card>, v: Value, k: nat)
    requires k <= |hand| && forall u: Value :: u != v ==> CountValue(hand, u) < 2
    ensures PairMarks(hand, k) <= CountValue(hand[..k], v)
  {
    if k > 0 {
      MarksOneValue(hand, v, k - 1);
      assert hand[..k][..k - 1] == hand[..k - 1];
      CopiesCountValue(hand, hand[k - 1].value);
    }
  }

  /**
   * The two-pair test holds exactly for two different values held twice each, or for
   * a value held three times among the first six cards: the marks count cards, so
   * three cards of one value pass it too.
   */
  lemma TwoPairMeaning(hand: seq<Card>)
    requires |hand| == 7
    ensures HasTwoPair(hand) <==>
      (exists v: Value, w: Value :: v != w && CountValue(hand, v) >= 2 && CountValue(hand, w) >= 2) ||
      (exists v: Value :: CountValue(hand[..6], v) >= 3)
  {
    if v: Value, w: Value :| v != w && CountValue(hand, v) >= 2 && CountValue(hand, w) >= 2 {
      TwoPairComplete(hand, v, w);
    } else if v: Value :| CountValue(hand[..6], v) >= 3 {
      assert hand[..6] == hand[..|hand| - 1];
      MarksCoverOne(hand, v, 6);
    } else if HasTwoPair(hand) {
      TwoPairHasPair(hand);
      var i :| 0 <= i < 6 && Copies(hand, hand[i].value) >= 2;
      var v := hand[i].value;
      CopiesCountValue(hand, v);
      MarksOneValue(hand, v, 6);
      assert false;
    }
  }

  /** Two pairs imply a pair. */
  lemma TwoPairHasPair(hand: seq<Card>)
    requires |hand| == 7 && HasTwoPair(hand)
    ensures HasPair(hand)
  {
    var k := 6;
    while PairMarks(hand, k - 1) == PairMarks(hand, k)
      invariant 0 < k <= 6 && PairMarks(hand, k) > 0
      decreases k
    {
      k := k - 1;
    }
    assert Copies(hand, hand[k - 1].value) >= 2;
  }

  // ---------------------------------------------------------------------------
  // Full house

  /** `test_full`: among the first six cards one value is held exactly twice and one
      exactly three times. */
  predicate HasFull(hand: seq<Card>)
    requires |hand| == 7
  {
    (exists i :: 0 <= i < 6 && Copies(hand, hand[i].value) == 2) &&
    (exists j :: 0 <= j < 6 && Copies(hand, hand[j].value) == 3)
  }

  method TestFull(hand: seq<Card>) returns (r: bool)
    requires |hand| == 7
    ensures r == HasFull(hand)
  {
    var nPair := 0;
    var nBrelan := 0;
    for i := 0 to 6
      invariant (nPair > 0) == exists q :: 0 <= q < i && Copies(hand, hand[q].value) == 2
      invariant (nBrelan > 0) == exists q :: 0 <= q < i && Copies(hand, hand[q].value) == 3
      invariant !(nPair > 0 && nBrelan > 0)
    {
      var n :=
        Count(hand, Card(Club, hand[i].value)) +
        Count(hand, Card(Diamond, hand[i].value)) +
        Count(hand, Card(Heart, hand[i].value)) +
        Count(hand, Card(Spade, hand[i].value));
      if n == 2 {
        nPair := nPair + 1;
      }
      if n == 3 {
        nBrelan := nBrelan + 1;
      }
      if nPair > 0 && nBrelan > 0 {
        return true;
      }
    }
    return false;
  }

  /** The test holds exactly for a value held exactly three times and another held
      exactly twice. Two values held three times each are therefore no full house. */
  lemma FullMeaning(hand: seq<Card>)
    requires |hand| == 7
    ensures HasFull(hand) <==> exists v: Value, w: Value :: v != w && CountValue(hand, v) == 3 && CountValue(hand, w) == 2
  {
    if HasFull(hand) {
      var i :| 0 <= i < 6 && Copies(hand, hand[i].value) == 2;
      var j :| 0 <= j < 6 && Copies(hand, hand[j].value) == 3;
      CopiesCountValue(hand, hand[i].value);
      CopiesCountValue(hand, hand[j].value);
    }
    if v: Value, w: Value :| v != w && CountValue(hand, v) == 3 && CountValue(hand, w) == 2 {
      EarlyWitness(hand, v, 6);
      EarlyWitness(hand, w, 6);
      var i :| 0 <= i < 6 && hand[i].value == w;
      var j :| 0 <= j < 6 && hand[j].value == v;
      CopiesCountValue(hand, v);
      CopiesCountValue(hand, w);
    }
  }

  // ---------------------------------------------------------------------------
  // Straight

  /** Where `test_straight` starts counting from a card: its value, or `size_t(-1)`
      for an ace. */
  function StartValue(v: Value): nat {
    if v == As then SizeMax else v
  }

  /** The value `test_straight` looks for at step `j` from `start`. */
  function Successor(start: nat, j: nat): nat {
    (start + j + 1) % 13
  }

  /** The four values after `start`, taken modulo the number of values, are all present. */
  predicate RunAfter(hand: seq<Card>, start: nat) {
    forall j :: 0 <= j < 4 ==> ValuePresent(hand, Successor(start, j))
  }

  /** `test_straight`: some card no higher than a ten starts five consecutive values. */
  predicate HasStraight(hand: seq<Card>)
    requires |hand| == 7
  {
    exists i :: 0 <= i < 7 && StartValue(hand[i].value) <= Ten && RunAfter(hand, StartValue(hand[i].value))
  }

  method TestStraight(hand: seq<Card>) returns (r: bool)
    requires |hand| == 7
    ensures r == HasStraight(hand)
  {
    for i := 0 to 7
      invariant forall q :: 0 <= q < i ==> !(StartValue(hand[q].value) <= Ten && RunAfter(hand, StartValue(hand[q].value)))
    {
      var startValue: nat := hand[i].value;
      if startValue == As {
        startValue := SizeMax;
      }
      if startValue > Ten {
        continue;
      }
      var found := true;
      for j := 0 to 4
        invariant found && forall q :: 0 <= q < j ==> ValuePresent(hand, Successor(startValue, q))
      {
        var toSearch := (startValue + j + 1) % 13;
        assert toSearch == Successor(startValue, j);
        var present := exists k :: 0 <= k < |hand| && hand[k].value == toSearch;
        if !present {
          found := false;
          break;
        }
      }
      if found {
        return true;
      }
    }
    return false;
  }

  /** A straight is five consecutive values, the lowest of them a ten at most. */
  lemma StraightMeaning(hand: seq<Card>)
    requires |hand| == 7
    ensures HasStraight(hand) <==> exists v: nat :: v <= Ten && ValuePresent(hand, v) && RunAfter(hand, v)
  {
    if v: nat :| v <= Ten && ValuePresent(hand, v) && RunAfter(hand, v) {
      var k :| 0 <= k < |hand| && hand[k].value == v;
      assert StartValue(hand[k].value) == v;
    }
  }

  /** The ace never counts low: ace to five with no six is no straight. */
  lemma NoWheel()
    ensures var hand := [Card(Spade, As), Card(Heart, 0), Card(Diamond, 1), Card(Club, 2), Card(Spade, 3), Card(Heart, King), Card(Diamond, Queen)];
      !HasStraight(hand)
  {
    var hand := [Card(Spade, As), Card(Heart, 0), Card(Diamond, 1), Card(Club, 2), Card(Spade, 3), Card(Heart, King), Card(Diamond, Queen)];
    forall x: nat | 4 <= x <= 9 ensures !ValuePresent(hand, x) {
      assert forall k :: 0 <= k < 7 ==> hand[k].value != x;
    }
    StraightMeaning(hand);
    forall v: nat | v <= Ten ensures !RunAfter(hand, v) {
      if v < 4 {
        assert Successor(v, 3 - v) == 4 && !ValuePresent(hand, 4);
      } else {
        assert Successor(v, 0) == v + 1 && !ValuePresent(hand, v + 1);
      }
    }
  }

  // ---------------------------------------------------------------------------
  // Colours

  /**
   * `get_dominant_color`: one counter per colour, each raised once whatever the hand
   * holds, then the first strictly larger counter wins over the club. The answer is
   * always one club.
   */
  method DominantColor(hand: seq<Card>) returns (dominant: Color, n: nat)
    ensures dominant == Club && n == 1
  {
    var counts := new nat[4](_ => 0);
    var best := 3;
    for i := 0 to 4
      invariant forall k :: 0 <= k < i ==> counts[k] == 1
      invariant forall k :: i <= k < 4 ==> counts[k] == 0
    {
      counts[i] := counts[i] + 1;
    }
    for i := 0 to 4
      invariant best == 3 && forall k :: 0 <= k < 4 ==> counts[k] == 1
    {
      if counts[best] < counts[i] {
        best := i;
      }
    }
    dominant := Club;
    n := counts[best];
  }

  /** `test_flush`: never holds, the dominant count being one. */
  method TestFlush(hand: seq<Card>) returns (r: bool)
    ensures !r
  {
    var _, n := DominantColor(hand);
    r := n >= 5;
  }

  /** `test_royal_flush`: never holds, for the same reason. */
  method TestRoyalFlush(hand: seq<Card>) returns (r: bool)
    ensures !r
  {
    var dominant, n := DominantColor(hand);
    if n < 5 {
      r := false;
    } else {
      r := Card(dominant, As) in hand && Card(dominant, King) in hand && Card(dominant, Queen) in hand &&
           Card(dominant, Jacket) in hand && Card(dominant, Ten) in hand;
    }
  }

  /** `test_straight_flush`: a straight that is a flush, so never. */
  method TestStraightFlush(hand: seq<Card>) returns (r: bool)
    requires |hand| == 7
    ensures !r
  {
    var straight := TestStraight(hand);
    var flush := TestFlush(hand);
    r := straight && flush;
  }

  // ---------------------------------------------------------------------------
  // Ordering the hand

  /** The sort order of the combined hand: an ace before anything that is not an ace,
      otherwise the higher value first. It is the order by decreasing value. */
  function CardBefore(a: Card, b: Card): (r: bool)
    ensures r <==> a.value > b.value
  {
    if a.value == As && b.value != As then true
    else if a.value != As && b.value == As then false
    else a.value > b.value
  }
}
