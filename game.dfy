/**
 * The table state of the server: dice, hands, and the game status that maps
 * each player to a hand and keeps a running tally of the faces on the table.
 *
 * The tally (`dice_count`, a Counter of faces) must always equal the multiset
 * of every face in every hand still in `players`; each GameStatus method keeps
 * that as part of `Valid()`.
 */
module Game {
  import opened Wrappers

  /** Dice dealt into a fresh hand. */
  const StartingDice: nat := 6

  predicate IsFace(f: int) { 1 <= f <= 6 }

  /** One six-sided die, held by the face it shows. */
  datatype Die = Die(face: int)

  /** Roll a die: it shows some face in 1..6, chosen freely (the source rolls at random). */
  method Roll() returns (d: Die)
    ensures IsFace(d.face)
  {
    var f :| 1 <= f <= 6;
    d := Die(f);
  }

  /** Every die in a sequence shows a face in 1..6. */
  ghost predicate Rolled(dice: seq<Die>) {
    forall i :: 0 <= i < |dice| ==> IsFace(dice[i].face)
  }

  /** A player's dice, in the order they were dealt. */
  datatype Hand = Hand(hand: seq<Die>) {
    /** True when the hand still holds at least one die. */
    function HaveDie(): (r: bool)
      ensures r <==> exists d :: d in hand
    {
      if |hand| > 0 then assert hand[0] in hand; true else false
    }

    /** The face of every die in the hand, in hand order. */
    function DieFace(): (faces: seq<int>)
      ensures |faces| == |hand|
      ensures forall i :: 0 <= i < |hand| ==> faces[i] == hand[i].face
    {
      seq(|hand|, i requires 0 <= i < |hand| => hand[i].face)
    }

    /** Re-roll every die: as many dice as before, each showing a face in 1..6. */
    method Reroll() returns (rolled: Hand)
      ensures |rolled.hand| == |hand| && Rolled(rolled.hand)
    {
      var dice := hand;
      var i := 0;
      while i < |dice|
        invariant 0 <= i <= |dice| == |hand|
        invariant Rolled(dice[..i])
      {
        var d := Roll();
        dice := dice[i := d];
        i := i + 1;
      }
      rolled := Hand(dice);
    }
  }

  /** A fresh hand holds several freshly rolled dice. */
  method NewHand() returns (h: Hand)
    ensures |h.hand| == StartingDice && StartingDice > 1 && Rolled(h.hand)
  {
    var dice: seq<Die> := [];
    while |dice| < StartingDice
      invariant |dice| <= StartingDice && Rolled(dice)
    {
      var d := Roll();
      dice := dice + [d];
    }
    h := Hand(dice);
  }

  /** Dice that each show a face in 1..6 contribute only such faces to a tally. */
  lemma RolledFaces(h: Hand)
    requires Rolled(h.hand)
    ensures forall f :: f in multiset(h.DieFace()) ==> IsFace(f)
  {
    forall f | f in multiset(h.DieFace()) ensures IsFace(f) {
      var i :| 0 <= i < |h.hand| && h.DieFace()[i] == f;
    }
  }

  /** The multiset union of every player's faces: what `dice_count` must hold. */
  ghost function Tally(t: map<string, Hand>): multiset<int>
    decreases t.Keys
  {
    if t == map[] then multiset{}
    else
      var p :| p in t;
      multiset(t[p].DieFace()) + Tally(t - {p})
  }

  /** The tally can be split at any player, whichever one the definition picked. */
  lemma {:induction false} TallyRemove(t: map<string, Hand>, k: string)
    requires k in t
    ensures Tally(t) == multiset(t[k].DieFace()) + Tally(t - {k})
    decreases t.Keys
  {
    var p :| p in t && Tally(t) == multiset(t[p].DieFace()) + Tally(t - {p});
    if p != k {
      var rest := t - {p} - {k};
      TallyRemove(t - {p}, k);
      TallyRemove(t - {k}, p);
      assert t - {k} - {p} == rest;
      assert (t - {p})[k] == t[k] && (t - {k})[p] == t[p];
    }
  }

  /** Seating a new player adds exactly its faces to the tally. */
  lemma TallyAdd(t: map<string, Hand>, k: string, h: Hand)
    requires k !in t
    ensures Tally(t[k := h]) == Tally(t) + multiset(h.DieFace())
  {
    TallyRemove(t[k := h], k);
    assert t[k := h] - {k} == t;
  }

  /** Unseating a player takes exactly its faces out of the tally. */
  lemma TallyDrop(t: map<string, Hand>, k: string)
    requires k in t
    ensures Tally(t - {k}) == Tally(t) - multiset(t[k].DieFace())
  {
    TallyRemove(t, k);
  }

  /** Taking the last die out of a hand takes one copy of its face out of the tally. */
  lemma TallyPop(t: map<string, Hand>, k: string)
    requires k in t && |t[k].hand| > 0
    ensures var dice := t[k].hand;
      Tally(t[k := Hand(dice[..|dice| - 1])]) == Tally(t) - multiset{dice[|dice| - 1].face}
  {
    var dice := t[k].hand;
    var rest := Hand(dice[..|dice| - 1]);
    TallyRemove(t, k);
    TallyRemove(t[k := rest], k);
    assert t[k := rest] - {k} == t - {k};
    assert t[k].DieFace() == rest.DieFace() + [dice[|dice| - 1].face];
  }

  /** A face is in the tally exactly when some player's hand shows it. */
  lemma {:induction false} TallyHas(t: map<string, Hand>, f: int)
    ensures f in Tally(t) <==> exists p :: p in t && f in t[p].DieFace()
    decreases t.Keys
  {
    if t != map[] {
      var p :| p in t;
      TallyRemove(t, p);
      TallyHas(t - {p}, f);
      if exists q :: q in t && f in t[q].DieFace() {
        var q :| q in t && f in t[q].DieFace();
        if q != p { assert q in t - {p} && f in (t - {p})[q].DieFace(); }
      }
      if f in Tally(t) && f !in t[p].DieFace() {
        var q :| q in t - {p} && f in (t - {p})[q].DieFace();
        assert q in t && f in t[q].DieFace();
      }
    }
  }

  /** A tally of hands whose dice were all rolled holds only faces 1..6. */
  lemma TallyFaces(t: map<string, Hand>)
    requires forall p :: p in t ==> Rolled(t[p].hand)
    ensures forall f :: f in Tally(t) ==> IsFace(f)
  {
    forall f | f in Tally(t) ensures IsFace(f) {
      TallyHas(t, f);
      var p :| p in t && f in t[p].DieFace();
      RolledFaces(t[p]);
      assert f in multiset(t[p].DieFace());
    }
  }

  /** The status of one table: each player's hand, and the face tally. */
  class GameStatus {
    var players: map<string, Hand>
    var diceCount: multiset<int>

    /** Every die shows a face in 1..6, and the tally counts exactly the faces in the hands. */
    ghost predicate Valid()
      reads this
    {
      && (forall p :: p in players ==> Rolled(players[p].hand))
      && diceCount == Tally(players)
    }

    /** An empty table with an empty tally. */
    constructor ()
      ensures Valid() && players == map[] && diceCount == multiset{}
    {
      players := map[];
      diceCount := multiset{};
    }

    /**
     * Take the last die out of `player`'s hand and out of the tally; report
     * whether the hand is now empty. The player stays in `players`.
     */
    method RemoveDie(player: string) returns (emptied: bool)
      requires Valid()
      requires player in players && players[player].HaveDie()
      modifies this
      ensures Valid()
      ensures var before := old(players[player].hand);
        players == old(players)[player := Hand(before[..|before| - 1])] &&
        diceCount == old(diceCount) - multiset{before[|before| - 1].face}
      ensures emptied <==> !players[player].HaveDie()
    {
      var dice := players[player].hand;
      var n := |dice|;
      TallyPop(players, player);
      diceCount := diceCount - multiset{dice[n - 1].face};
      players := players[player := Hand(dice[..n - 1])];
      emptied := !players[player].HaveDie();
    }

    /** Seat `player` with a fresh hand and add its faces to the tally. */
    method AddPlayer(player: string)
      requires Valid()
      requires player !in players
      modifies this
      ensures Valid()
      ensures player in players && players == old(players)[player := players[player]]
      ensures |players[player].hand| == StartingDice
      ensures diceCount == old(diceCount) + multiset(players[player].DieFace())
    {
      var h := NewHand();
      TallyAdd(players, player, h);
      players := players[player := h];
      diceCount := diceCount + multiset(h.DieFace());
    }

    /** Unseat `player`: its hand leaves `players` and its faces leave the tally. */
    method RemovePlayer(player: string)
      requires Valid()
      requires player in players
      modifies this
      ensures Valid()
      ensures players == old(players) - {player}
      ensures diceCount == old(diceCount) - multiset(old(players)[player].DieFace())
      ensures players == map[] ==> diceCount == multiset{}
    {
      TallyDrop(players, player);
      diceCount := diceCount - multiset(players[player].DieFace());
      players := players - {player};
    }

    /**
     * Re-roll every hand, then rebuild the tally from the new faces; hand
     * sizes stay the same.
     */
    method RerollAll()
      requires Valid()
      modifies this
      ensures Valid()
      ensures players.Keys == old(players).Keys
      ensures forall p :: p in players ==> |players[p].hand| == |old(players)[p].hand|
      ensures forall f :: f in diceCount ==> IsFace(f)
    {
      var todo := players.Keys;
      var rolled: map<string, Hand> := map[];
      var count: multiset<int> := multiset{};
      while todo != {}
        invariant players == old(players)
        invariant todo <= players.Keys && rolled.Keys == players.Keys - todo
        invariant forall p :: p in rolled ==> Rolled(rolled[p].hand)
        invariant forall p :: p in rolled ==> |rolled[p].hand| == |players[p].hand|
        invariant count == Tally(rolled)
        decreases todo
      {
        var p :| p in todo;
        var h := players[p].Reroll();
        TallyAdd(rolled, p, h);
        rolled := rolled[p := h];
        count := count + multiset(h.DieFace());
        todo := todo - {p};
      }
      players := rolled;
      diceCount := count;
      TallyFaces(players);
    }

    /** The sole remaining player, or None while any other number remain. */
    method GetWinner() returns (winner: Option<string>)
      ensures winner.Some? <==> |players| == 1
      ensures winner.Some? ==> players.Keys == {winner.value}
    {
      if |players| == 1 {
        var p :| p in players;
        assert |players.Keys - {p}| == 0;
        winner := Some(p);
      } else {
        winner := None;
      }
    }
  }
}
