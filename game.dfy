/**
 * The rules of a Niya game on values: where each tile lies on the grid
 * (a Layout), the state that `Board.play` changes (a State), the play
 * transition itself, the terminal check, and what they guarantee.
 * `Boards.Board` is proved to follow these definitions.
 */
module Game {
  import opened Wrappers
  import opened Tiles

  const RED := 1
  const BLACK := -1

  /** `Board.addresses`: the sixteen cells in row-major order. */
  const ADDRESSES: seq<Address> :=
    [(0, 0), (0, 1), (0, 2), (0, 3),
     (1, 0), (1, 1), (1, 2), (1, 3),
     (2, 0), (2, 1), (2, 2), (2, 3),
     (3, 0), (3, 1), (3, 2), (3, 3)]

  /** The playable moves a new board starts with. */
  const BORDER_MOVES: seq<Address> :=
    [(0, 0), (0, 1), (0, 2), (0, 3), (1, 0), (1, 3), (2, 0), (2, 3), (3, 0), (3, 1), (3, 2), (3, 3)]

  predicate InRange(a: Address) {
    0 <= a.0 < 4 && 0 <= a.1 < 4
  }

  /** The address list enumerates the grid row by row, each cell once. */
  lemma AddressesAreRowMajor()
    ensures |ADDRESSES| == 16
    ensures forall i | 0 <= i < 16 :: ADDRESSES[i] == (i / 4, i % 4)
  {
  }

  /** The playable moves of a new board, as a set. */
  function InitialMoves(): set<Address> {
    set a | a in BORDER_MOVES
  }

  /** The initial moves are exactly the cells on the grid's outer ring; the four inner cells are not among them. */
  lemma InitialMovesAreBorder()
    ensures forall a :: a in InitialMoves() <==> InRange(a) && (a.0 == 0 || a.0 == 3 || a.1 == 0 || a.1 == 3)
    ensures (1, 1) !in InitialMoves() && (1, 2) !in InitialMoves() && (2, 1) !in InitialMoves() && (2, 2) !in InitialMoves()
  {
    InitialMovesDisplay();
    forall a | InRange(a) && (a.0 == 0 || a.0 == 3 || a.1 == 0 || a.1 == 3) ensures a in InitialMoves() {
      var (r, c) := a;
      if r == 0 || r == 3 {
        assert c == 0 || c == 1 || c == 2 || c == 3;
      } else {
        assert (r == 1 || r == 2) && (c == 0 || c == 3);
      }
    }
  }

  /** There are twelve initial moves. */
  lemma InitialMovesCount()
    ensures |InitialMoves()| == 12
  {
    var top, bottom := {(0, 0), (0, 1), (0, 2), (0, 3)}, {(3, 0), (3, 1), (3, 2), (3, 3)};
    var sides := {(1, 0), (1, 3), (2, 0), (2, 3)};
    assert |top| == 4 && |bottom| == 4 && |sides| == 4;
    assert top * bottom == {};
    assert |top + bottom| == 8;
    assert (top + bottom) * sides == {};
    assert |top + bottom + sides| == 12;
    InitialMovesDisplay();
  }

  lemma InitialMovesDisplay()
    ensures InitialMoves() ==
      {(0, 0), (0, 1), (0, 2), (0, 3)} + {(3, 0), (3, 1), (3, 2), (3, 3)} + {(1, 0), (1, 3), (2, 0), (2, 3)}
  {
  }

  /**
   * Where the tiles lie: the grid read as a map from cell to tile, and each
   * tile's `address`.
   */
  datatype Layout = Layout(tileAt: map<Address, Tile>, addressOf: map<Tile, Address>)

  /** The grid and the addresses are mutually inverse: a bijection between the 16 cells and the 16 tiles. */
  ghost predicate ValidLayout(l: Layout) {
    && (forall a :: a in l.tileAt <==> InRange(a))
    && (forall t :: t in l.addressOf && InRange(l.addressOf[t]))
    && (forall a | a in l.tileAt :: l.addressOf[l.tileAt[a]] == a)
    && (forall t :: l.tileAt[l.addressOf[t]] == t)
  }

  /**
   * What `Board.play` changes: each tile's player (absent for `None`), the
   * playable moves, the active player and the move counter.
   */
  datatype State = State(owner: map<Tile, int>, playable: set<Address>, active: int, moves: int)

  /** `tile.is_playable()`: the tile has no player, or a falsy one. */
  predicate Unowned(owner: map<Tile, int>, t: Tile) {
    t !in owner || owner[t] == 0
  }

  /** The state right after `Board.__init__`. */
  function Initial(): State {
    State(map[], InitialMoves(), RED, 0)
  }

  /** The switch of `active_player` after an accepted play. */
  function Flip(player: int): int {
    if player == RED then BLACK else RED
  }

  /**
   * `Board.play(a)`: either nothing changes, or the cell was playable and its
   * unowned tile goes to the active player, the turn passes and one more
   * move is counted; the other tiles keep their players.
   */
  function Step(l: Layout, s: State, a: Address): (r: State)
    requires ValidLayout(l) && InRange(a)
    ensures r == s || (a in s.playable && r.active == Flip(s.active) && r.moves == s.moves + 1)
    ensures r != s ==> Unowned(s.owner, l.tileAt[a]) && l.tileAt[a] in r.owner && r.owner[l.tileAt[a]] == s.active
    ensures forall t | t in s.owner && t != l.tileAt[a] :: t in r.owner && r.owner[t] == s.owner[t]
  {
    var t := l.tileAt[a];
    if a in s.playable && Unowned(s.owner, t) then
      var owner := s.owner[t := s.active];
      State(owner, set u | u in Neighbours(t) && Unowned(owner, u) :: l.addressOf[u], Flip(s.active), s.moves + 1)
    else
      s
  }

  /** `Board.evaluate_board()`: the active player once no move is playable, `None` before. */
  function Evaluate(s: State): (r: Option<int>)
    ensures r.Some? <==> s.playable == {}
    ensures r.Some? ==> r.value == s.active
  {
    if s.playable == {} then Some(s.active) else None
  }

  /** A sequence of calls to `Board.play`. */
  function Run(l: Layout, s: State, plays: seq<Address>): State
    requires ValidLayout(l) && forall a | a in plays :: InRange(a)
    decreases |plays|
  {
    if plays == [] then s else Run(l, Step(l, s, plays[0]), plays[1..])
  }

  /**
   * What every reachable state satisfies: players are RED or BLACK, the
   * move counter counts the owned tiles, the active player follows the
   * counter's parity, and every playable cell holds an unowned tile.
   */
  ghost predicate Inv(l: Layout, s: State) {
    && ValidLayout(l)
    && (forall t | t in s.owner :: s.owner[t] == RED || s.owner[t] == BLACK)
    && s.moves == |s.owner|
    && s.active == (if s.moves % 2 == 0 then RED else BLACK)
    && (forall a | a in s.playable :: InRange(a) && l.tileAt[a] !in s.owner)
  }

  lemma InitialIsValid(l: Layout)
    requires ValidLayout(l)
    ensures Inv(l, Initial())
  {
  }

  /** Every play, accepted or not, keeps the invariant. */
  lemma StepPreservesInv(l: Layout, s: State, a: Address)
    requires Inv(l, s) && InRange(a)
    ensures Inv(l, Step(l, s, a))
  {
    var t := l.tileAt[a];
    if a in s.playable && Unowned(s.owner, t) {
      var s' := Step(l, s, a);
      assert t !in s.owner;
      assert |s'.owner| == |s.owner| + 1;
      forall b | b in s'.playable ensures InRange(b) && l.tileAt[b] !in s'.owner {
        var u :| u in Neighbours(t) && Unowned(s'.owner, u) && b == l.addressOf[u];
      }
    }
  }

  /**
   * A play is accepted exactly when its cell is playable (the ownership
   * test is then redundant); an accepted play gives the tile to the player
   * who moved, makes playable exactly the cells of that tile's unowned
   * neighbours, hands the turn over and counts the move; a rejected play
   * changes nothing.
   */
  lemma StepSpec(l: Layout, s: State, a: Address)
    requires Inv(l, s) && InRange(a)
    ensures var s' := Step(l, s, a);
      && (a !in s.playable ==> s' == s)
      && (a in s.playable ==>
            var t := l.tileAt[a];
            && t !in s.owner
            && s'.owner == s.owner[t := s.active]
            && (forall b :: b in s'.playable <==> InRange(b) && l.tileAt[b] in Neighbours(t) && l.tileAt[b] !in s'.owner)
            && s'.active == -s.active
            && s'.moves == s.moves + 1)
  {
    if a in s.playable {
      var t := l.tileAt[a];
      var s' := Step(l, s, a);
      StepPreservesInv(l, s, a);
      forall b | InRange(b) && l.tileAt[b] in Neighbours(t) && l.tileAt[b] !in s'.owner
        ensures b in s'.playable
      {
        var u := l.tileAt[b];
        assert l.addressOf[u] == b;
      }
    }
  }

  /** A tile that already has a player is never played again. */
  lemma OwnedTileIsNeverReplayed(l: Layout, s: State, a: Address)
    requires Inv(l, s) && InRange(a) && l.tileAt[a] in s.owner
    ensures Step(l, s, a) == s
  {
  }

  /** No play takes a tile away from its player or changes it. */
  lemma StepKeepsOwners(l: Layout, s: State, a: Address)
    requires Inv(l, s) && InRange(a)
    ensures forall t | t in s.owner :: t in Step(l, s, a).owner && Step(l, s, a).owner[t] == s.owner[t]
  {
  }

  /** The move counter never exceeds the number of tiles. */
  lemma MovesBounded(l: Layout, s: State)
    requires Inv(l, s)
    ensures 0 <= s.moves <= 16
  {
    AllTilesCount();
    SubsetCard(s.owner.Keys, AllTiles());
  }

  lemma {:induction false} SubsetCard<T>(a: set<T>, b: set<T>)
    requires a <= b
    ensures |a| <= |b|
    decreases |a|
  {
    if a != {} {
      var x :| x in a;
      SubsetCard(a - {x}, b - {x});
    }
  }

  /** Once every tile has a player no move is playable, so the game is over. */
  lemma FullBoardEndsGame(l: Layout, s: State)
    requires Inv(l, s) && s.moves == 16
    ensures Evaluate(s).Some?
  {
    AllTilesCount();
    SubsetFull(s.owner.Keys, AllTiles());
    assert forall t :: t in s.owner;
    if a :| a in s.playable {
      assert false;
    }
  }

  /** A subset as large as its finite superset is the whole superset. */
  lemma {:induction false} SubsetFull<T>(a: set<T>, b: set<T>)
    requires a <= b && |a| == |b|
    ensures a == b
    decreases |a|
  {
    if a != {} {
      var x :| x in a;
      SubsetFull(a - {x}, b - {x});
      assert a == (a - {x}) + {x} && b == (b - {x}) + {x};
    }
  }

  /** Once no move is playable, `evaluate_board` names the active player and no further play is accepted. */
  lemma GameOverIsFinal(l: Layout, s: State, a: Address)
    requires ValidLayout(l) && InRange(a) && Evaluate(s).Some?
    ensures Evaluate(s) == Some(s.active)
    ensures Step(l, s, a) == s
  {
  }

  /**
   * When a play ends the game, the player `evaluate_board` returns is the
   * one whose turn it now is, not the one who made that play.
   */
  lemma EvaluateNamesPlayerToMove(l: Layout, s: State, a: Address)
    requires Inv(l, s) && InRange(a) && a in s.playable
    requires Evaluate(Step(l, s, a)).Some?
    ensures Evaluate(Step(l, s, a)) == Some(-s.active)
    ensures -s.active != s.active
  {
  }

  lemma {:induction false} RunPreservesInv(l: Layout, s: State, plays: seq<Address>)
    requires Inv(l, s) && forall a | a in plays :: InRange(a)
    ensures Inv(l, Run(l, s, plays))
    decreases |plays|
  {
    if plays != [] {
      StepPreservesInv(l, s, plays[0]);
      RunPreservesInv(l, Step(l, s, plays[0]), plays[1..]);
    }
  }

  /** Over any sequence of plays, players keep the tiles they own. */
  lemma {:induction false} RunKeepsOwners(l: Layout, s: State, plays: seq<Address>)
    requires Inv(l, s) && forall a | a in plays :: InRange(a)
    ensures forall t | t in s.owner :: t in Run(l, s, plays).owner && Run(l, s, plays).owner[t] == s.owner[t]
    decreases |plays|
  {
    if plays != [] {
      StepKeepsOwners(l, s, plays[0]);
      StepPreservesInv(l, s, plays[0]);
      RunKeepsOwners(l, Step(l, s, plays[0]), plays[1..]);
    }
  }

  /**
   * From a fresh board, after any sequence of plays: RED is to move after
   * an even number of accepted plays and BLACK after an odd number, the
   * counter equals the number of owned tiles, and at most 16 plays were
   * accepted.
   */
  lemma GameFromStart(l: Layout, plays: seq<Address>)
    requires ValidLayout(l) && forall a | a in plays :: InRange(a)
    ensures var s := Run(l, Initial(), plays);
      && s.active == (if s.moves % 2 == 0 then RED else BLACK)
      && s.moves == |s.owner|
      && 0 <= s.moves <= 16
  {
    InitialIsValid(l);
    RunPreservesInv(l, Initial(), plays);
    MovesBounded(l, Run(l, Initial(), plays));
  }
}
