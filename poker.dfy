/**
 * The betting engine of the poker game: players with chip counts, the actions an
 * agent can take, what applying an action does to the table, the agent's policy,
 * blind posting and the end-of-game test. Chip counts are `size_t`, 64-bit
 * unsigned values whose arithmetic wraps around.
 */
module Poker {
  import opened Cards

  const Modulus: nat := 0x1_0000_0000_0000_0000

  type U64 = x: nat | x < 0x1_0000_0000_0000_0000

  /** `size_t` addition. */
  function Add64(a: U64, b: U64): (r: U64)
    ensures a + b < Modulus ==> r == a + b
    ensures a + b >= Modulus ==> r == a + b - Modulus
  {
    (a + b) % Modulus
  }

  /** `size_t` subtraction. */
  function Sub64(a: U64, b: U64): (r: U64)
    ensures b <= a ==> r == a - b
    ensures a < b ==> r == a - b + Modulus
  {
    (a - b) % Modulus
  }

  function Min64(a: U64, b: U64): (r: U64)
    ensures r <= a && r <= b && (r == a || r == b)
  {
    if a < b then a else b
  }

  function Max64(a: U64, b: U64): (r: U64)
    ensures r >= a && r >= b && (r == a || r == b)
  {
    if a < b then b else a
  }

  datatype Player = Player(hand: seq<Card>, stack: U64, bet: U64, currentBet: U64, folded: bool)

  datatype ActionKind = Follow | Raise | Check | None | Fold

  datatype Action = Action(value: U64, kind: ActionKind)

  // ---------------------------------------------------------------------------
  // Printing an action

  function Digit(d: nat): char
    requires d < 10
  {
    "0123456789"[d]
  }

  /** The decimal digits of `n`, as `std::to_string` writes them. */
  function Decimal(n: nat): (s: string)
    ensures |s| > 0 && forall k :: 0 <= k < |s| ==> '0' <= s[k] <= '9'
  {
    if n < 10 then [Digit(n)] else Decimal(n / 10) + [Digit(n % 10)]
  }

  /** Reads back a string of decimal digits. */
  function ReadDecimal(s: string): nat
    requires forall k :: 0 <= k < |s| ==> '0' <= s[k] <= '9'
  {
    if s == [] then 0 else ReadDecimal(s[..|s| - 1]) * 10 + (s[|s| - 1] as int - '0' as int)
  }

  lemma {:induction false} DecimalRoundTrip(n: nat)
    ensures ReadDecimal(Decimal(n)) == n
  {
    var s := Decimal(n);
    if n >= 10 {
      DecimalRoundTrip(n / 10);
      assert s[..|s| - 1] == Decimal(n / 10);
    }
  }

  /** `Action::stringify`. */
  function Stringify(a: Action): string {
    match a.kind
    case Follow => "Follow"
    case Raise => "Raise " + Decimal(a.value)
    case Check => "Check"
    case Fold => "Fold"
    case None => "-----"
  }

  /** The text names the kind of the action, and for a raise its amount. */
  lemma StringifyDistinguishes(a: Action, b: Action)
    requires Stringify(a) == Stringify(b)
    ensures a.kind == b.kind
    ensures a.kind == Raise ==> a.value == b.value
  {
    if a.kind == Raise && b.kind == Raise {
      var s, t := Stringify(a), Stringify(b);
      assert s[6..] == Decimal(a.value) && t[6..] == Decimal(b.value);
      DecimalRoundTrip(a.value);
      DecimalRoundTrip(b.value);
    }
  }

  // ---------------------------------------------------------------------------
  // Applying an action

  /** What `Game::apply` reads and writes: the players, the pot and the running bet. */
  datatype Table = Table(players: seq<Player>, pot: U64, runningBet: U64)

  /** What `Game::apply` asserts before an action. */
  predicate Allowed(t: Table, who: nat, a: Action)
    requires who < |t.players|
  {
    var p := t.players[who];
    match a.kind
    case Follow => Add64(p.stack, p.currentBet) >= t.runningBet
    case Raise => p.stack >= a.value
    case None => p.stack == 0 && !p.folded
    case _ => true
  }

  /** The table once player `who` has taken action `a`. */
  function Applied(t: Table, who: nat, a: Action): (r: Table)
    requires who < |t.players|
    ensures |r.players| == |t.players|
    ensures forall k :: 0 <= k < |t.players| && k != who ==> r.players[k] == t.players[k]
  {
    var p := t.players[who];
    match a.kind
    case Check => t
    case None => t
    case Fold => t.(players := t.players[who := p.(folded := true)])
    case Follow =>
      var dt := Sub64(t.runningBet, p.currentBet);
      Table(t.players[who := p.(stack := Sub64(p.stack, dt), currentBet := t.runningBet, bet := Add64(p.bet, dt))],
            Add64(t.pot, dt), t.runningBet)
    case Raise =>
      Table(t.players[who := p.(stack := Sub64(p.stack, a.value), currentBet := Add64(p.currentBet, a.value),
                                bet := Add64(p.bet, a.value))],
            Add64(t.pot, a.value), Add64(t.runningBet, Sub64(Max64(t.runningBet, a.value), t.runningBet)))
  }

  /** The chips on the table: every stack and the pot. */
  function Stacks(ps: seq<Player>): nat {
    if ps == [] then 0 else Stacks(ps[..|ps| - 1]) + ps[|ps| - 1].stack
  }

  lemma {:induction false} StacksUpdate(ps: seq<Player>, k: nat, p: Player)
    requires k < |ps|
    ensures Stacks(ps[k := p]) == Stacks(ps) - ps[k].stack + p.stack
  {
    if k < |ps| - 1 {
      StacksUpdate(ps[..|ps| - 1], k, p);
      assert ps[k := p][..|ps| - 1] == ps[..|ps| - 1][k := p];
    } else {
      assert ps[k := p][..|ps| - 1] == ps[..|ps| - 1];
    }
  }

  /** A follow pays the gap between the running bet and the player's bet of this turn:
      the stack loses it, the pot and the player's total bet gain it, and the player's
      bet of this turn becomes the running bet. */
  lemma FollowMoves(t: Table, who: nat, a: Action)
    requires who < |t.players| && a.kind == Follow && Allowed(t, who, a)
    requires t.players[who].currentBet <= t.runningBet
    requires t.players[who].stack + t.players[who].currentBet < Modulus
    ensures var p, q, dt := t.players[who], Applied(t, who, a).players[who], t.runningBet - t.players[who].currentBet;
      q.stack == p.stack - dt && q.currentBet == t.runningBet && q.bet == Add64(p.bet, dt) &&
      Applied(t, who, a).pot == Add64(t.pot, dt) && q.folded == p.folded
  {
  }

  /** A raise moves its amount from the stack to the pot, the player's bets grow by it,
      and the running bet becomes the larger of itself and the amount. */
  lemma RaiseMoves(t: Table, who: nat, a: Action)
    requires who < |t.players| && a.kind == Raise && Allowed(t, who, a)
    ensures var p, q := t.players[who], Applied(t, who, a).players[who];
      q.stack == p.stack - a.value && q.currentBet == Add64(p.currentBet, a.value) &&
      q.bet == Add64(p.bet, a.value) && q.folded == p.folded &&
      Applied(t, who, a).pot == Add64(t.pot, a.value) &&
      Applied(t, who, a).runningBet == Max64(t.runningBet, a.value)
  {
  }

  /** No allowed action creates or destroys chips: stacks and pot keep their sum,
      counted modulo 2^64 as `size_t` counts. */
  lemma ChipsConserved(t: Table, who: nat, a: Action)
    requires who < |t.players| && Allowed(t, who, a)
    ensures (Stacks(Applied(t, who, a).players) + Applied(t, who, a).pot) % Modulus == (Stacks(t.players) + t.pot) % Modulus
  {
    var r := Applied(t, who, a);
    var p := t.players[who];
    if a.kind == Follow || a.kind == Raise || a.kind == Fold {
      StacksUpdate(t.players, who, r.players[who]);
      assert r.players == t.players[who := r.players[who]];
    }
    var rest := Stacks(t.players) - p.stack;
    match a.kind
    case Follow => MovedChips(t, who, a, Sub64(t.runningBet, p.currentBet));
    case Raise => MovedChips(t, who, a, a.value);
    case _ =>
  }

  /** An action that moves `d` chips from the player's stack to the pot. */
  lemma MovedChips(t: Table, who: nat, a: Action, d: U64)
    requires who < |t.players|
    requires var r := Applied(t, who, a);
      r.players == t.players[who := r.players[who]] &&
      r.players[who].stack == Sub64(t.players[who].stack, d) && r.pot == Add64(t.pot, d)
    ensures (Stacks(Applied(t, who, a).players) + Applied(t, who, a).pot) % Modulus == (Stacks(t.players) + t.pot) % Modulus
  {
    var r := Applied(t, who, a);
    StacksUpdate(t.players, who, r.players[who]);
    Transfer(Stacks(t.players) - t.players[who].stack, t.players[who].stack, t.pot, d);
  }

  /** Moving `d` chips from a stack to the pot, both wrapping, keeps their sum modulo 2^64. */
  lemma Transfer(rest: int, stack: U64, pot: U64, d: U64)
    ensures (rest + Sub64(stack, d) + Add64(pot, d)) % Modulus == (rest + stack + pot) % Modulus
  {
    var x := rest + stack + pot;
    var y := rest + Sub64(stack, d) + Add64(pot, d);
    assert y == x || y == x + Modulus || y == x - Modulus;
    ShiftMod(x, y);
  }

  /** Values one modulus apart have the same residue. */
  lemma ShiftMod(x: int, y: int)
    requires y == x || y == x + Modulus || y == x - Modulus
    ensures y % Modulus == x % Modulus
  {
    var q := x / Modulus;
    assert x == q * Modulus + x % Modulus;
    if y == x + Modulus {
      assert y == (q + 1) * Modulus + x % Modulus;
    } else if y == x - Modulus {
      assert y == (q - 1) * Modulus + x % Modulus;
    }
  }

  /** Folding, checking and doing nothing move no chips; a fold only marks the player. */
  lemma QuietActions(t: Table, who: nat, a: Action)
    requires who < |t.players| && a.kind in {Check, None, Fold}
    ensures Applied(t, who, a).pot == t.pot && Applied(t, who, a).runningBet == t.runningBet
    ensures Applied(t, who, a).players[who] == if a.kind == Fold then t.players[who].(folded := true) else t.players[who]
  {
  }

  // ---------------------------------------------------------------------------
  // Blinds

  /** Index of the small blind: the player before the big blind. */
  function SmallBlindIdx(n: nat, idx: nat): nat
    requires 0 < n
  {
    ((n + idx) - 1) % n
  }

  /** A player at the start of a hand: no bets, not folded. */
  function Reset(p: Player): Player {
    p.(bet := 0, currentBet := 0, folded := false)
  }

  /** The players and the pot once blinds are posted: the big blind pays up to the big
      blind from its stack, the small blind up to half of it, and every player left
      without chips is folded. */
  function Blinds(ps: seq<Player>, idx: nat, bigBlind: U64): (r: (seq<Player>, U64))
    requires |ps| == 3 && idx < 3
    ensures |r.0| == 3
  {
    var s := SmallBlindIdx(3, idx);
    var reset := seq(3, k requires 0 <= k < 3 => Reset(ps[k]));
    var big := Min64(reset[idx].stack, bigBlind);
    var afterBig := reset[idx := reset[idx].(stack := reset[idx].stack - big)];
    var small := Min64(afterBig[s].stack, bigBlind / 2);
    var afterSmall := afterBig[s := afterBig[s].(stack := afterBig[s].stack - small)];
    (seq(3, k requires 0 <= k < 3 => afterSmall[k].(folded := afterSmall[k].stack == 0)), Add64(Add64(0, big), small))
  }

  /** What the blinds take from the stacks is what the pot holds (modulo 2^64); the two
      blinds are different players; nobody else pays. */
  lemma BlindsMove(ps: seq<Player>, idx: nat, bigBlind: U64)
    requires |ps| == 3 && idx < 3
    ensures SmallBlindIdx(3, idx) != idx
    ensures Blinds(ps, idx, bigBlind).0[idx].stack == ps[idx].stack - Min64(ps[idx].stack, bigBlind)
    ensures var s := SmallBlindIdx(3, idx);
      Blinds(ps, idx, bigBlind).0[s].stack == ps[s].stack - Min64(ps[s].stack, bigBlind / 2)
    ensures var s := SmallBlindIdx(3, idx);
      Blinds(ps, idx, bigBlind).1 == (Min64(ps[idx].stack, bigBlind) + Min64(ps[s].stack, bigBlind / 2)) % Modulus
    ensures var s := SmallBlindIdx(3, idx);
      Stacks(Blinds(ps, idx, bigBlind).0) + Min64(ps[idx].stack, bigBlind) + Min64(ps[s].stack, bigBlind / 2) == Stacks(ps)
    ensures var r := Blinds(ps, idx, bigBlind); var s := SmallBlindIdx(3, idx);
      forall k :: 0 <= k < 3 ==>
        (r.0[k].bet == 0 && r.0[k].currentBet == 0 && r.0[k].folded == (r.0[k].stack == 0) &&
         r.0[k].hand == ps[k].hand && (k != idx && k != s ==> r.0[k].stack == ps[k].stack))
  {
    var r := Blinds(ps, idx, bigBlind);
    var s := SmallBlindIdx(3, idx);
    assert s != idx;
    BlindsPlayer(ps, idx, bigBlind, 0);
    BlindsPlayer(ps, idx, bigBlind, 1);
    BlindsPlayer(ps, idx, bigBlind, 2);
    StacksOfThree(r.0);
    StacksOfThree(ps);
    BlindsPot(ps, idx, bigBlind);
  }

  /** The pot after the blinds, written with the two amounts taken from the original stacks. */
  lemma BlindsPot(ps: seq<Player>, idx: nat, bigBlind: U64)
    requires |ps| == 3 && idx < 3
    ensures var s := SmallBlindIdx(3, idx);
      Blinds(ps, idx, bigBlind).1 == (Min64(ps[idx].stack, bigBlind) + Min64(ps[s].stack, bigBlind / 2)) % Modulus
  {
    var s := SmallBlindIdx(3, idx);
    assert s != idx;
    var big := Min64(ps[idx].stack, bigBlind);
    var small := Min64(ps[s].stack, bigBlind / 2);
    assert Blinds(ps, idx, bigBlind).1 == Add64(Add64(0, big), small);
    assert Add64(0, big) == big;
  }

  /** Player `k` once blinds are posted: bets cleared, its blind (if any) paid, folded
      exactly when left without chips. */
  lemma BlindsPlayer(ps: seq<Player>, idx: nat, bigBlind: U64, k: nat)
    requires |ps| == 3 && idx < 3 && k < 3
    ensures var s := SmallBlindIdx(3, idx);
      var paid := if k == idx then Min64(ps[idx].stack, bigBlind)
                  else if k == s then Min64(ps[s].stack, bigBlind / 2) else 0;
      Blinds(ps, idx, bigBlind).0[k] ==
        ps[k].(bet := 0, currentBet := 0, stack := ps[k].stack - paid, folded := ps[k].stack - paid == 0)
  {
  }

  lemma StacksOfThree(ps: seq<Player>)
    requires |ps| == 3
    ensures Stacks(ps) == ps[0].stack + ps[1].stack + ps[2].stack
  {
    assert ps[..1][..0] == [];
    assert Stacks(ps[..1]) == ps[0].stack;
    assert ps[..2][..1] == ps[..1];
    assert Stacks(ps[..2]) == ps[0].stack + ps[1].stack;
  }

  // ---------------------------------------------------------------------------
  // End of game

  /** How many players still have chips. */
  function Solvent(ps: seq<Player>): (n: nat)
    ensures n <= |ps|
  {
    if ps == [] then 0 else Solvent(ps[..|ps| - 1]) + if ps[|ps| - 1].stack > 0 then 1 else 0
  }

  // ---------------------------------------------------------------------------
  // The game

  class Game {
    const players: array<Player>
    var pot: U64
    var bigBlind: U64
    var bigBlindIdx: U64
    var runningBet: U64
    var raisedTurn: bool

    ghost predicate Valid()
      reads this
    {
      players.Length == 3
    }

    function State(): Table
      reads this, players
    {
      Table(players[..], pot, runningBet)
    }

    /** Three players of 500 chips each; a big blind of 10 on player 0. */
    constructor ()
      ensures Valid() && fresh(players)
      ensures forall k :: 0 <= k < 3 ==> players[k] == Player([Card(Spade, 0), Card(Spade, 0)], 500, 0, 0, false)
      ensures pot == 0 && bigBlind == 10 && bigBlindIdx == 0 && runningBet == 0 && !raisedTurn
    {
      players := new Player[3](_ => Player([Card(Spade, 0), Card(Spade, 0)], 500, 0, 0, false));
      pot, bigBlind, bigBlindIdx, runningBet, raisedTurn := 0, 10, 0, 0, false;
    }

    /** `Game::over`: at most one player still has chips. */
    method Over() returns (r: bool)
      requires Valid()
      ensures r <==> Solvent(players[..]) <= 1
    {
      var i := 0;
      for k := 0 to 3
        invariant i == Solvent(players[..k]) && i <= 1
      {
        assert players[..k + 1][..k] == players[..k];
        if players[k].stack > 0 {
          i := i + 1;
        }
        if i > 1 {
          assert players[..] == players[..3];
          SolventMonotone(players[..], k + 1);
          return false;
        }
      }
      assert players[..] == players[..3];
      return true;
    }

    /** `Game::apply` for player `who`. */
    method Apply(who: nat, a: Action)
      requires Valid() && who < 3 && Allowed(State(), who, a)
      modifies this, players
      ensures Valid() && State() == Applied(old(State()), who, a)
      ensures bigBlind == old(bigBlind) && bigBlindIdx == old(bigBlindIdx) && raisedTurn == old(raisedTurn)
    {
      var player := players[who];
      match a.kind {
        case Check =>
        case Fold =>
          players[who] := player.(folded := true);
        case Follow =>
          var dt := Sub64(runningBet, player.currentBet);
          players[who] := player.(stack := Sub64(player.stack, dt), currentBet := runningBet, bet := Add64(player.bet, dt));
          pot := Add64(pot, dt);
        case Raise =>
          players[who] := player.(stack := Sub64(player.stack, a.value), currentBet := Add64(player.currentBet, a.value),
                                  bet := Add64(player.bet, a.value));
          pot := Add64(pot, a.value);
          runningBet := Add64(runningBet, Sub64(Max64(runningBet, a.value), runningBet));
        case None =>
      }
    }

    /**
     * `Agent::act` for the agent of player `me`: nothing without chips; in a raised
     * turn, fold when the running bet exceeds the stack and follow otherwise; else
     * raise by the running bet plus 10, capped at the stack, when some other player
     * could cover that raise on top of the running bet, and follow otherwise.
     */
    method Act(me: nat) returns (a: Action)
      requires Valid() && me < 3
      ensures players[me].stack == 0 ==> a.kind == None
      ensures players[me].stack > 0 && raisedTurn ==>
        a.kind in {Fold, Follow} && (a.kind == Fold <==> runningBet > players[me].stack)
      ensures players[me].stack > 0 && !raisedTurn ==>
        var toRaise := Min64(Add64(runningBet, 10), players[me].stack);
        if CanRaise(players[..], me, toRaise, runningBet) then a == Action(toRaise, Raise) else a.kind == Follow
    {
      a := Action(0, Follow);
      if players[me].stack == 0 {
        a := a.(kind := None);
        return;
      }
      if raisedTurn {
        if runningBet > players[me].stack {
          a := a.(kind := Fold);
        } else {
          a := a.(kind := Follow);
        }
      } else {
        var canRaise := false;
        var toRaise := Min64(Add64(runningBet, 10), players[me].stack);
        for k := 0 to 3
          invariant !canRaise
          invariant forall q :: 0 <= q < k && q != me ==> !Covers(players[q], toRaise, runningBet)
        {
          if k == me {
            continue;
          }
          if Add64(players[k].stack, players[k].currentBet) > Add64(toRaise, runningBet) {
            canRaise := true;
            break;
          }
        }
        if canRaise {
          a := Action(toRaise, Raise);
        } else {
          a := a.(kind := Follow);
        }
      }
    }

    /**
     * The blind posting of `play_new_hand`: the hand starts with an empty pot, every
     * player's bets are cleared, the big-blind index is taken modulo the number of
     * players, the two blinds are paid, the running bet is the big blind and every
     * player without chips is folded.
     */
    method PostBlinds()
      requires Valid()
      modifies this, players
      ensures Valid() && bigBlindIdx == old(bigBlindIdx) % 3 && runningBet == bigBlind == old(bigBlind)
      ensures raisedTurn == old(raisedTurn)
      ensures (players[..], pot) == Blinds(old(players[..]), bigBlindIdx, bigBlind)
    {
      ghost var before := players[..];
      pot := 0;
      ResetBets();
      ghost var reset := players[..];
      assert reset == seq(3, k requires 0 <= k < 3 => Reset(before[k]));
      bigBlindIdx := bigBlindIdx % 3;
      var s := SmallBlindIdx(3, bigBlindIdx);
      var big := Min64(players[bigBlindIdx].stack, bigBlind);
      pot := Add64(pot, big);
      players[bigBlindIdx] := players[bigBlindIdx].(stack := players[bigBlindIdx].stack - big);
      ghost var afterBig := players[..];
      assert afterBig == reset[bigBlindIdx := reset[bigBlindIdx].(stack := reset[bigBlindIdx].stack - big)];
      var small := Min64(players[s].stack, bigBlind / 2);
      pot := Add64(pot, small);
      players[s] := players[s].(stack := players[s].stack - small);
      runningBet := bigBlind;
      ghost var posted := players[..];
      assert posted == afterBig[s := afterBig[s].(stack := afterBig[s].stack - small)];
      assert forall k :: 0 <= k < 3 ==> !posted[k].folded;
      FoldBroke();
      assert players[..] == seq(3, k requires 0 <= k < 3 => posted[k].(folded := posted[k].stack == 0));
      assert pot == Add64(Add64(0, big), small);
      assert Blinds(before, bigBlindIdx, bigBlind) == (players[..], pot);
    }

    /** Every player's bets of the last hand are cleared and nobody is folded. */
    method ResetBets()
      requires Valid()
      modifies players
      ensures players[..] == seq(3, k requires 0 <= k < 3 => Reset(old(players[..])[k]))
    {
      for k := 0 to 3
        invariant forall q :: 0 <= q < k ==> players[q] == Reset(old(players[q]))
        invariant forall q :: k <= q < 3 ==> players[q] == old(players[q])
      {
        players[k] := Reset(players[k]);
      }
    }

    /** Every player without chips is folded; the others keep their flag. */
    method FoldBroke()
      requires Valid()
      modifies players
      ensures players[..] == seq(3, k requires 0 <= k < 3 => old(players[..])[k].(folded := old(players[..])[k].folded || old(players[..])[k].stack == 0))
    {
      for k := 0 to 3
        invariant forall q :: 0 <= q < k ==> players[q] == old(players[q]).(folded := old(players[q]).folded || old(players[q]).stack == 0)
        invariant forall q :: k <= q < 3 ==> players[q] == old(players[q])
      {
        if players[k].stack == 0 {
          players[k] := players[k].(folded := true);
        }
      }
    }

    /** The end of `play_new_hand`: each winner is handed the pot divided by the number
        of winners, and the big blind moves to the next player. */
    method PayWinners(winners: seq<nat>)
      requires Valid() && |winners| > 0 && forall k :: 0 <= k < |winners| ==> winners[k] < 3
      modifies this, players
      ensures Valid() && pot == old(pot) && bigBlindIdx == Add64(old(bigBlindIdx), 1)
      ensures players[..] == Paid(old(players[..]), winners, pot / |winners|)
    {
      var share := pot / |winners|;
      for i := 0 to |winners|
        invariant pot == old(pot) && bigBlindIdx == old(bigBlindIdx)
        invariant players[..] == Paid(old(players[..]), winners[..i], share)
      {
        assert winners[..i + 1][..i] == winners[..i];
        var p := players[winners[i]];
        players[winners[i]] := p.(stack := Add64(p.stack, share));
      }
      assert winners[..|winners|] == winners;
      bigBlindIdx := Add64(bigBlindIdx, 1);
    }
  }

  /** The players once each of `winners`, in turn, is handed `share` more chips. */
  function Paid(ps: seq<Player>, winners: seq<nat>, share: U64): (r: seq<Player>)
    requires forall k :: 0 <= k < |winners| ==> winners[k] < |ps|
    ensures |r| == |ps|
  {
    if winners == [] then ps
    else
      var before := Paid(ps, winners[..|winners| - 1], share);
      var w := winners[|winners| - 1];
      before[w := before[w].(stack := Add64(before[w].stack, share))]
  }

  /** A player is handed the share once per time it is listed, modulo 2^64, and is
      otherwise unchanged. */
  lemma PaidShares(ps: seq<Player>, winners: seq<nat>, share: U64, k: nat)
    requires forall q :: 0 <= q < |winners| ==> winners[q] < |ps|
    requires k < |ps|
    ensures Paid(ps, winners, share)[k] == ps[k].(stack := (ps[k].stack + Occurrences(winners, k) * share) % Modulus)
  {
    var o := Occurrences(winners, k);
    PaidCredit(ps, winners, share, k);
    CreditIsSum(ps[k].stack, o, share);
    SharesIsProduct(o, share);
  }

  /** `o` shares added one at a time, each addition wrapping. */
  function Credit(stack: U64, o: nat, share: U64): U64 {
    if o == 0 then stack else Add64(Credit(stack, o - 1, share), share)
  }

  /** Each occurrence among the winners adds one share to the stack. */
  lemma {:induction false} PaidCredit(ps: seq<Player>, winners: seq<nat>, share: U64, k: nat)
    requires forall q :: 0 <= q < |winners| ==> winners[q] < |ps|
    requires k < |ps|
    ensures Paid(ps, winners, share)[k] == ps[k].(stack := Credit(ps[k].stack, Occurrences(winners, k), share))
  {
    if winners != [] {
      var init, w := winners[..|winners| - 1], winners[|winners| - 1];
      PaidCredit(ps, init, share, k);
      assert Occurrences(winners, k) == Occurrences(init, k) + if w == k then 1 else 0;
    }
  }

  /** `o` shares, added up. */
  function Shares(o: nat, share: nat): nat {
    if o == 0 then 0 else Shares(o - 1, share) + share
  }

  lemma {:induction false} SharesIsProduct(o: nat, share: nat)
    ensures Shares(o, share) == o * share
  {
    if o > 0 {
      SharesIsProduct(o - 1, share);
      assert o * share == (o - 1) * share + share;
    }
  }

  /** Adding `o` shares one at a time, wrapping each time, wraps the total only once. */
  lemma {:induction false} CreditIsSum(stack: U64, o: nat, share: U64)
    ensures Credit(stack, o, share) == (stack + Shares(o, share)) % Modulus
  {
    if o > 0 {
      CreditIsSum(stack, o - 1, share);
      ModAddLeft(stack + Shares(o - 1, share), share);
    }
  }

  lemma ModAddLeft(n: nat, s: nat)
    ensures (n % Modulus + s) % Modulus == (n + s) % Modulus
  {
    var q := n / Modulus;
    assert n == q * Modulus + n % Modulus;
    assert n + s == (n % Modulus + s) + q * Modulus;
  }

  /** Player `p` could cover a raise of `toRaise` on top of `runningBet`. */
  predicate Covers(p: Player, toRaise: U64, runningBet: U64) {
    Add64(p.stack, p.currentBet) > Add64(toRaise, runningBet)
  }

  /** Some player other than `me` could cover the raise. */
  predicate CanRaise(ps: seq<Player>, me: nat, toRaise: U64, runningBet: U64) {
    exists q :: 0 <= q < |ps| && q != me && Covers(ps[q], toRaise, runningBet)
  }

  function Occurrences(s: seq<nat>, k: nat): nat {
    if s == [] then 0 else Occurrences(s[..|s| - 1], k) + if s[|s| - 1] == k then 1 else 0
  }

  lemma {:induction false} SolventMonotone(ps: seq<Player>, k: nat)
    requires k <= |ps|
    ensures Solvent(ps[..k]) <= Solvent(ps)
  {
    if k < |ps| {
      SolventMonotone(ps[..|ps| - 1], k);
      assert ps[..|ps| - 1][..k] == ps[..k];
    } else {
      assert ps[..k] == ps;
    }
  }
}
