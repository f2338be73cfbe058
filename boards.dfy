/**
 * The Niya board: the sixteen tile nodes with their feature pairs, the
 * feature map used to build them, the 4x4 grid, the playable moves, the
 * active player and the move counter, and `play`, the one operation that
 * changes them after setup.
 */
module Boards {
  import opened Wrappers
  import opened Tiles
  import opened Nodes
  import Game

  /** The first |stack| tiles of the nested loop, in order. */
  ghost predicate Made(stack: seq<Node>) {
    && |stack| <= 16
    && forall k | 0 <= k < |stack| :: stack[k].Id() == TileAt(k)
  }

  /**
   * With `pairs[j]` the feature pairs of `stack[j]`: the pairs are exactly
   * the other nodes of `stack` that share a feature.
   */
  ghost predicate PairedBy(stack: seq<Node>, pairs: seq<set<Node>>)
    requires Made(stack) && |pairs| == |stack|
  {
    && (forall j, k | 0 <= j < |stack| && 0 <= k < |stack| ::
          stack[k] in pairs[j] <==> j != k && Shares(TileAt(j), TileAt(k)))
    && (forall j, n | 0 <= j < |stack| && n in pairs[j] :: n in stack)
  }

  /** The feature pairs of the nodes of `stack`, in order. */
  ghost function PairsOf(stack: seq<Node>): (r: seq<set<Node>>)
    reads set n | n in stack
    ensures |r| == |stack| && forall j | 0 <= j < |stack| :: r[j] == stack[j].pairs
  {
    seq(|stack|, j requires 0 <= j < |stack| reads set n | n in stack => stack[j].pairs)
  }

  /** Among the nodes of `stack`, the feature pairs are exactly the other nodes sharing a feature. */
  ghost predicate Paired(stack: seq<Node>)
    reads set n | n in stack
    requires Made(stack)
  {
    PairedBy(stack, PairsOf(stack))
  }

  /**
   * One step of the construction keeps the pairing exact: when the node
   * for the next tile is paired with the earlier nodes the feature map
   * lists under its two features (and they with it), the pairs are again
   * exactly the nodes sharing a feature.
   */
  lemma ExtendPairs(stack: seq<Node>, pre: seq<set<Node>>, featureMap: map<Feature, set<Node>>, tile: Node)
    requires |stack| < 16 && Made(stack) && |pre| == |stack| && PairedBy(stack, pre) && Indexed(stack, featureMap)
    requires tile.Id() == TileAt(|stack|)
    ensures tile !in stack && Made(stack + [tile])
    ensures var matches := featureMap[FrontFeature(tile.front)] + featureMap[BackFeature(tile.back)];
      PairedBy(stack + [tile], Linked(stack, pre, matches, tile))
  {
    forall n | n in stack ensures n != tile {
      var x :| 0 <= x < |stack| && stack[x] == n;
      IndexOfTileAt(x);
      IndexOfTileAt(|stack|);
    }
    var matches := featureMap[FrontFeature(tile.front)] + featureMap[BackFeature(tile.back)];
    var post := Linked(stack, pre, matches, tile);
    var k := |stack|;
    var stack' := stack + [tile];
    forall x, y | 0 <= x <= k && 0 <= y <= k
      ensures stack'[y] in post[x] <==> x != y && Shares(TileAt(x), TileAt(y))
    {
      if x < k && y == k {
        assert tile !in pre[x];
        assert tile in post[x] <==> stack[x] in matches;
      } else if x == k && y < k {
        assert stack'[y] in post[x] <==> stack[y] in matches;
      }
    }
  }

  /** The pairs after `add_feature_pair(tile, n)` for each n in `matches`, with `tile`'s own last. */
  ghost function Linked(stack: seq<Node>, pre: seq<set<Node>>, matches: set<Node>, tile: Node): (r: seq<set<Node>>)
    requires |pre| == |stack|
    ensures |r| == |stack| + 1 && r[|stack|] == matches
    ensures forall j | 0 <= j < |stack| :: r[j] == pre[j] + (if stack[j] in matches then {tile} else {})
  {
    seq(|stack|, j requires 0 <= j < |stack| => pre[j] + (if stack[j] in matches then {tile} else {})) + [matches]
  }

  /** Recording the next node under its two features keeps the feature map exact. */
  lemma ExtendIndex(stack: seq<Node>, featureMap: map<Feature, set<Node>>, tile: Node)
    requires Indexed(stack, featureMap)
    ensures Indexed(stack + [tile],
      featureMap[FrontFeature(tile.front) := featureMap[FrontFeature(tile.front)] + {tile}]
                [BackFeature(tile.back) := featureMap[BackFeature(tile.back)] + {tile}])
  {
  }

  /** The feature map holds every feature, each with exactly the nodes of `stack` that bear it. */
  ghost predicate Indexed(stack: seq<Node>, featureMap: map<Feature, set<Node>>) {
    forall feature :: feature in featureMap
      && (forall n | n in featureMap[feature] :: n in stack && HasFeature(n.Id(), feature))
      && (forall k | 0 <= k < |stack| && HasFeature(stack[k].Id(), feature) :: stack[k] in featureMap[feature])
  }

  /** A shuffle of the sixteen tiles, given as the source position of each shuffled slot. */
  ghost predicate IsPermutation(perm: seq<int>) {
    && |perm| == 16
    && (forall i | 0 <= i < 16 :: 0 <= perm[i] < 16)
    && (forall i, j | 0 <= i < j < 16 :: perm[i] != perm[j])
    && (forall k | 0 <= k < 16 :: k in perm)
  }

  class Board {
    var moveCounter: int
    var active: int
    /** The nodes in shuffled order. */
    var tileStack: seq<Node>
    var featureMap: map<Feature, set<Node>>
    var grid: array2<Node?>
    var playable: set<Address>
    /** The nodes in creation order, before the shuffle. */
    ghost var created: seq<Node>

    /** The node of tile t. */
    ghost function NodeOf(t: Tile): Node
      reads this
      requires |created| == 16
    {
      created[Index(t)]
    }

    /** What setup establishes and `play` never changes. */
    /** Every cell holds a node and every node has an address. */
    ghost predicate Placed()
      reads this, grid, set n | n in created
    {
      && grid.Length0 == 4 && grid.Length1 == 4 && |created| == 16
      && (forall r, c | 0 <= r < 4 && 0 <= c < 4 :: grid[r, c] != null)
      && (forall k | 0 <= k < 16 :: created[k].address.Some?)
    }

    ghost predicate Structure()
      reads this, grid, set n | n in created
    {
      && Placed()
      && grid.Length0 == 4 && grid.Length1 == 4
      && |created| == 16 && Made(created) && Paired(created) && Indexed(created, featureMap)
      && |tileStack| == 16
      && (forall r, c | 0 <= r < 4 && 0 <= c < 4 ::
            grid[r, c] != null && grid[r, c] in created && grid[r, c].address == Some((r, c)))
      && (forall k | 0 <= k < 16 ::
            created[k].address.Some? && Game.InRange(created[k].address.value) &&
            grid[created[k].address.value.0, created[k].address.value.1] == created[k])
      && (forall i | 0 <= i < 16 :: tileStack[i] == grid[i / 4, i % 4])
    }

    /** The grid and the nodes' addresses, as values. */
    ghost function Layout(): Game.Layout
      reads this, grid, set n | n in created
      requires Placed()
    {
      Game.Layout(
        map r, c | 0 <= r < 4 && 0 <= c < 4 :: (r, c) := grid[r, c].Id(),
        map t | t in AllTiles() :: NodeOf(t).address.value)
    }

    /** The state `play` changes, as a value. */
    ghost function Snapshot(): Game.State
      reads this, set n | n in created
      requires |created| == 16
    {
      Game.State(
        map t | t in AllTiles() && NodeOf(t).player.Some? :: NodeOf(t).player.value,
        playable, active, moveCounter)
    }

    ghost predicate Valid()
      reads this, grid, set n | n in created
    {
      Structure() && Game.Inv(Layout(), Snapshot())
    }

    /**
     * `Board.__init__` with `shuffle` replaced by the permutation it
     * applies: builds the sixteen nodes and their feature pairs, shuffles
     * them, places them on the grid in row-major order and seeds the
     * playable moves with the border cells.
     */
    constructor (perm: seq<int>)
      requires IsPermutation(perm)
      ensures Valid()
      ensures Snapshot() == Game.Initial()
      ensures forall i | 0 <= i < 16 :: tileStack[i] == created[perm[i]]
    {
      moveCounter := 0;
      active := Game.RED;
      var stack, shuffled, features, cells := Setup(perm);
      featureMap := features;
      grid := cells;
      tileStack := shuffled;
      created := stack;
      playable := Game.InitialMoves();
      new;
      InitialSnapshot();
      ShuffledStructure(perm);
      InitialIsValid();
    }

    /** A board with its structure in place and no play made is valid. */
    lemma InitialIsValid()
      requires Structure() && Snapshot() == Game.Initial()
      ensures Valid()
    {
      LayoutIsValid();
      Game.InitialIsValid(Layout());
    }

    /**
     * The body of `Board.__init__` up to the playable moves: the feature
     * map, the sixteen nodes in creation order, their shuffle by `perm`,
     * and the grid they are placed on.
     */
    static method Setup(perm: seq<int>)
      returns (stack: seq<Node>, shuffled: seq<Node>, featureMap: map<Feature, set<Node>>, cells: array2<Node?>)
      requires IsPermutation(perm)
      ensures |stack| == 16 && Made(stack) && Paired(stack) && Indexed(stack, featureMap)
      ensures |shuffled| == 16 && forall i | 0 <= i < 16 :: shuffled[i] == stack[perm[i]]
      ensures cells.Length0 == 4 && cells.Length1 == 4
      ensures forall i | 0 <= i < 16 :: shuffled[i].address == Some((i / 4, i % 4)) && cells[i / 4, i % 4] == shuffled[i]
      ensures forall n | n in stack :: fresh(n) && n.player == None
      ensures fresh(cells)
    {
      featureMap := NewFeatureMap();
      cells := new Node?[4, 4];
      stack, featureMap := BuildTiles(featureMap);
      shuffled := seq(16, i requires 0 <= i < 16 => stack[perm[i]]);
      forall i, j | 0 <= i < j < 16 ensures shuffled[i] != shuffled[j] {
        IndexOfTileAt(perm[i]);
        IndexOfTileAt(perm[j]);
      }
      assert forall n | n in shuffled :: n in stack;
      label built:
      PlaceTiles(shuffled, cells);
      assert forall n | n in stack :: n in shuffled by {
        forall n | n in stack ensures n in shuffled {
          var k :| 0 <= k < 16 && stack[k] == n;
          assert k in perm;
          var i :| 0 <= i < 16 && perm[i] == k;
          assert shuffled[i] == n;
        }
      }
      PairedKept@built(stack);
    }

    /** Before the first play no node has a player, so the snapshot is the initial state. */
    lemma InitialSnapshot()
      requires |created| == 16 && forall n | n in created :: n.player == None
      requires playable == Game.InitialMoves() && active == Game.RED && moveCounter == 0
      ensures Snapshot() == Game.Initial()
    {
      forall t ensures NodeOf(t).player == None {
        assert NodeOf(t) in created;
      }
      assert Snapshot().owner.Keys == {};
    }

    /** Placing the shuffled nodes in row-major order yields the board's structure. */
    lemma ShuffledStructure(perm: seq<int>)
      requires IsPermutation(perm) && |created| == 16 && |tileStack| == 16
      requires grid.Length0 == 4 && grid.Length1 == 4
      requires Made(created) && Paired(created) && Indexed(created, featureMap)
      requires forall i | 0 <= i < 16 :: tileStack[i] == created[perm[i]]
      requires forall i | 0 <= i < 16 :: tileStack[i].address == Some((i / 4, i % 4)) && grid[i / 4, i % 4] == tileStack[i]
      ensures Structure()
    {
      forall r, c | 0 <= r < 4 && 0 <= c < 4
        ensures grid[r, c] != null && grid[r, c] in created && grid[r, c].address == Some((r, c))
      {
        var i := 4 * r + c;
        assert i / 4 == r && i % 4 == c;
      }
      forall k | 0 <= k < 16
        ensures created[k].address.Some? && Game.InRange(created[k].address.value)
        ensures grid[created[k].address.value.0, created[k].address.value.1] == created[k]
      {
        assert k in perm;
        var i :| 0 <= i < 16 && perm[i] == k;
        assert tileStack[i] == created[k];
      }
    }

    /** `Board._feature_map`: a map from each of the eight features to an empty set. */
    static method NewFeatureMap() returns (featureMap: map<Feature, set<Node>>)
      ensures forall feature :: feature in featureMap && featureMap[feature] == {}
    {
      featureMap := map[];
      for i := 0 to 4
        invariant forall feature | feature in featureMap :: featureMap[feature] == {}
        invariant forall k | 0 <= k < i :: FrontFeature(FRONT_FEATURES[k]) in featureMap
      {
        featureMap := featureMap[FrontFeature(FRONT_FEATURES[i]) := {}];
      }
      forall f ensures FrontFeature(f) in featureMap {
        assert f == FRONT_FEATURES[FrontIndex(f)];
      }
      for i := 0 to 4
        invariant forall feature | feature in featureMap :: featureMap[feature] == {}
        invariant forall f :: FrontFeature(f) in featureMap
        invariant forall k | 0 <= k < i :: BackFeature(BACK_FEATURES[k]) in featureMap
      {
        featureMap := featureMap[BackFeature(BACK_FEATURES[i]) := {}];
      }
      forall feature ensures feature in featureMap {
        if feature.BackFeature? {
          assert feature == BackFeature(BACK_FEATURES[BackIndex(feature.back)]);
        }
      }
    }

    /**
     * The nested loop of `Board.__init__`: makes one node per
     * (front, back) pair, in FRONT_FEATURES x BACK_FEATURES order.
     */
    static method BuildTiles(featureMap0: map<Feature, set<Node>>) returns (stack: seq<Node>, featureMap: map<Feature, set<Node>>)
      requires forall feature :: feature in featureMap0 && featureMap0[feature] == {}
      ensures |stack| == 16 && Made(stack) && Paired(stack) && Indexed(stack, featureMap)
      ensures forall n | n in stack :: fresh(n) && n.address == None && n.player == None
    {
      featureMap := featureMap0;
      stack := [];
      for i := 0 to 4
        invariant |stack| == 4 * i
        invariant Made(stack) && Paired(stack) && Indexed(stack, featureMap)
        invariant forall n | n in stack :: fresh(n) && n.address == None && n.player == None
      {
        for j := 0 to 4
          invariant |stack| == 4 * i + j
          invariant Made(stack) && Paired(stack) && Indexed(stack, featureMap)
          invariant forall n | n in stack :: fresh(n) && n.address == None && n.player == None
        {
          ghost var before := stack;
          stack, featureMap := AddTile(stack, featureMap, FRONT_FEATURES[i], BACK_FEATURES[j]);
          assert forall n | n in stack :: n in before || n == stack[|before|];
        }
      }
    }

    /**
     * One iteration of that loop: makes the node (f, b), pairs it with every
     * earlier node sharing f or b (found through the feature map), then
     * records it under f and b and appends it to the stack.
     */
    static method AddTile(stack0: seq<Node>, featureMap0: map<Feature, set<Node>>, f: Front, b: Back)
      returns (stack: seq<Node>, featureMap: map<Feature, set<Node>>)
      requires |stack0| < 16 && Made(stack0) && Paired(stack0) && Indexed(stack0, featureMap0)
      requires TileAt(|stack0|) == Tile(f, b)
      modifies set n | n in stack0
      ensures |stack| == |stack0| + 1 && stack[..|stack0|] == stack0 && fresh(stack[|stack0|])
      ensures Made(stack) && Paired(stack) && Indexed(stack, featureMap)
      ensures forall n | n in stack0 :: n.address == old(n.address) && n.player == old(n.player)
      ensures stack[|stack0|].address == None && stack[|stack0|].player == None
    {
      ghost var pre := PairsOf(stack0);
      var tile := new Node(f, b);
      ExtendPairs(stack0, pre, featureMap0, tile);
      ExtendIndex(stack0, featureMap0, tile);
      var matches := featureMap0[FrontFeature(f)] + featureMap0[BackFeature(b)];
      Link(tile, matches, stack0);
      featureMap := featureMap0[FrontFeature(f) := featureMap0[FrontFeature(f)] + {tile}];
      featureMap := featureMap[BackFeature(b) := featureMap[BackFeature(b)] + {tile}];
      stack := stack0 + [tile];
      assert PairsOf(stack) == Linked(stack0, pre, matches, tile);
    }

    /**
     * The innermost loop of `Board.__init__`: `add_feature_pair` between the
     * new node and each of `matches`.
     */
    static method Link(tile: Node, matches: set<Node>, ghost stack: seq<Node>)
      requires forall n | n in matches :: n in stack
      requires tile !in stack && tile.pairs == {}
      modifies tile, set n | n in stack
      ensures tile.pairs == matches
      ensures forall n | n in stack :: n.pairs == old(n.pairs) + (if n in matches then {tile} else {})
      ensures forall n | n in stack :: n.address == old(n.address) && n.player == old(n.player)
      ensures tile.address == old(tile.address) && tile.player == old(tile.player)
    {
      var rest := matches;
      while rest != {}
        invariant rest <= matches
        invariant tile.pairs == matches - rest
        invariant forall n | n in stack :: n.pairs == old(n.pairs) + (if n in matches - rest then {tile} else {})
        invariant forall n | n in stack :: n.address == old(n.address) && n.player == old(n.player)
        invariant tile.address == old(tile.address) && tile.player == old(tile.player)
        decreases rest
      {
        var n :| n in rest;
        tile.AddFeaturePair(n);
        rest := rest - {n};
      }
    }

    /**
     * The zip loop of `Board.__init__`: gives the i-th shuffled node the
     * i-th address and writes it into that grid cell.
     */
    static method PlaceTiles(stack: seq<Node>, cells: array2<Node?>)
      requires |stack| == 16 && cells.Length0 == 4 && cells.Length1 == 4
      requires forall i, j | 0 <= i < j < 16 :: stack[i] != stack[j]
      modifies cells, set n | n in stack
      ensures forall i | 0 <= i < 16 :: stack[i].address == Some((i / 4, i % 4)) && cells[i / 4, i % 4] == stack[i]
      ensures forall n | n in stack :: n.pairs == old(n.pairs) && n.player == old(n.player)
    {
      Game.AddressesAreRowMajor();
      for i := 0 to 16
        invariant forall k | 0 <= k < i :: stack[k].address == Some((k / 4, k % 4)) && cells[k / 4, k % 4] == stack[k]
        invariant forall n | n in stack :: n.pairs == old(n.pairs) && n.player == old(n.player)
      {
        var address := Game.ADDRESSES[i];
        stack[i].SetAddress(address);
        var (row, col) := address;
        cells[row, col] := stack[i];
      }
    }

    /** Changing anything but the feature pairs keeps the pairing. */
    static twostate lemma PairedKept(stack: seq<Node>)
      requires Made(stack) && old(Paired(stack))
      requires forall n | n in stack :: n.pairs == old(n.pairs)
      ensures Paired(stack)
    {
      assert PairsOf(stack) == old(PairsOf(stack));
    }

    /** Every tile's node carries that tile's identity, and every node is the node of its identity. */
    lemma NodeOfIsIdentity()
      requires |created| == 16 && Made(created)
      ensures forall t :: NodeOf(t).Id() == t
      ensures forall n | n in created :: NodeOf(n.Id()) == n
    {
      forall n | n in created ensures NodeOf(n.Id()) == n {
        var k :| 0 <= k < 16 && created[k] == n;
        IndexOfTileAt(k);
      }
    }

    /** The grid is a bijection between the sixteen cells and the sixteen tiles. */
    lemma LayoutIsValid()
      requires Structure()
      ensures Game.ValidLayout(Layout())
    {
      NodeOfIsIdentity();
    }

    /**
     * `Board.get_feature_matches`: the nodes recorded under either of the
     * tile's features, i.e. every node sharing a feature with it; for a
     * node of this board that is its feature pairs and itself.
     */
    method GetFeatureMatches(tile: Node) returns (matches: set<Node>)
      requires Valid()
      ensures forall n :: n in matches <==> n in created && Shares(n.Id(), tile.Id())
      ensures tile in created ==> matches == tile.pairs + {tile}
    {
      matches := featureMap[FrontFeature(tile.front)] + featureMap[BackFeature(tile.back)];
      FeatureMatches(tile);
    }

    /**
     * `Board.play`: a cell in the playable moves whose tile has no player
     * is claimed for the active player; the playable moves become the
     * cells of its still unclaimed feature pairs, the turn passes and the
     * move counter grows. Any other address leaves the board unchanged.
     * Callers reason about the effect through `Game.StepSpec` applied to
     * the value states `old(Snapshot())` and `Snapshot()` rather than by
     * unfolding `Game.Step` in the heap.
     */
    method Play(address: Address)
      requires Valid() && Game.InRange(address)
      modifies this, grid[address.0, address.1]
      ensures Valid()
      ensures grid == old(grid) && created == old(created) && tileStack == old(tileStack) && featureMap == old(featureMap)
      ensures Layout() == old(Layout())
      ensures Snapshot() == Game.Step(old(Layout()), old(Snapshot()), address)
    {
      var tile := grid[address.0, address.1];
      if address in playable && !Truthy(tile.player) {
        PairsInBoard(tile);
        Claim(address);
        ClaimStep(address);
      } else {
        RejectedStep(address);
      }
    }

    /** The cells of the feature pairs of `tile` that are still playable. */
    static ghost function MovesFrom(tile: Node): set<Address>
      reads tile, tile.pairs
      requires forall n | n in tile.pairs :: n.address.Some?
    {
      set n | n in tile.pairs && n.IsPlayable() :: n.address.value
    }

    /**
     * The body of the legal branch of `Board.play`: the tile takes the
     * active player, the playable moves become the cells of its pairs that
     * are still playable, the turn passes and the counter grows.
     */
    method Claim(address: Address)
      requires grid.Length0 == 4 && grid.Length1 == 4 && Game.InRange(address) && grid[address.0, address.1] != null
      requires forall n | n in grid[address.0, address.1].pairs :: n.address.Some?
      modifies this`playable, this`active, this`moveCounter, grid[address.0, address.1]`player
      ensures grid == old(grid) && created == old(created) && tileStack == old(tileStack) && featureMap == old(featureMap)
      ensures forall r, c | 0 <= r < grid.Length0 && 0 <= c < grid.Length1 :: grid[r, c] == old(grid[r, c])
      ensures forall n | n in created :: n.pairs == old(n.pairs) && n.address == old(n.address)
      ensures forall n | n in created && n != grid[address.0, address.1] :: n.player == old(n.player)
      ensures grid[address.0, address.1].player == Some(old(active))
      ensures forall n | n in grid[address.0, address.1].pairs :: n.address.Some?
      ensures playable == MovesFrom(grid[address.0, address.1])
      ensures active == Game.Flip(old(active)) && moveCounter == old(moveCounter) + 1
    {
      var tile := grid[address.0, address.1];
      tile.player := Some(active);
      playable := set n | n in tile.pairs && n.IsPlayable() :: n.address.value;
      if active == Game.RED {
        active := Game.BLACK;
      } else {
        active := Game.RED;
      }
      moveCounter := moveCounter + 1;
    }

    /**
     * `Board.evaluate_board`: the active player once no move is playable,
     * nothing while moves remain.
     */
    method EvaluateBoard() returns (winner: Option<int>)
      requires Valid()
      ensures winner == Game.Evaluate(Snapshot())
    {
      if playable == {} {
        winner := Some(active);
      } else {
        winner := None;
      }
    }

    /**
     * The feature map lists under a tile's two features the nodes sharing a
     * feature with it; for a node of the board, its feature pairs and itself.
     */
    lemma FeatureMatches(tile: Node)
      requires Structure()
      ensures forall n :: n in featureMap[FrontFeature(tile.front)] + featureMap[BackFeature(tile.back)]
                <==> n in created && Shares(n.Id(), tile.Id())
      ensures tile in created ==>
        featureMap[FrontFeature(tile.front)] + featureMap[BackFeature(tile.back)] == tile.pairs + {tile}
    {
      forall n | n in created && Shares(n.Id(), tile.Id())
        ensures n in featureMap[FrontFeature(tile.front)] + featureMap[BackFeature(tile.back)]
      {
        var k :| 0 <= k < 16 && created[k] == n;
        if n.front == tile.front {
          assert HasFeature(created[k].Id(), FrontFeature(tile.front));
        } else {
          assert HasFeature(created[k].Id(), BackFeature(tile.back));
        }
      }
      if tile in created {
        PairsAreSharers(tile);
      }
    }

    /** The feature pairs of a node of the board are the other nodes sharing a feature with it. */
    lemma PairsAreSharers(tile: Node)
      requires Structure() && tile in created
      ensures forall n :: n in tile.pairs <==> n in created && n != tile && Shares(n.Id(), tile.Id())
    {
      var j :| 0 <= j < 16 && created[j] == tile;
      assert tile.pairs == PairsOf(created)[j];
      forall n | n in created ensures n in tile.pairs <==> n != tile && Shares(n.Id(), tile.Id()) {
        var k :| 0 <= k < 16 && created[k] == n;
      }
    }

    /** `feature_map[f]` holds the nodes of the four tiles bearing f, and nothing else. */
    lemma FeatureMapHoldsBearers(feature: Feature)
      requires |created| == 16 && Made(created) && Indexed(created, featureMap)
      ensures featureMap[feature] == set t | t in Bearers(feature) :: NodeOf(t)
      ensures |featureMap[feature]| == 4
    {
      NodeOfIsIdentity();
      var bearers := set t | t in Bearers(feature) :: NodeOf(t);
      forall n | n in featureMap[feature] ensures n in bearers {
        assert n == NodeOf(n.Id());
      }
      forall t | t in Bearers(feature) ensures NodeOf(t) in featureMap[feature] {
        assert HasFeature(created[Index(t)].Id(), feature);
      }
      NodesCard(Bearers(feature));
    }

    /** Construction makes one node per tile: no two nodes bear the same pair of features. */
    lemma NodesAreDistinct()
      requires |created| == 16 && Made(created)
      ensures forall j, k | 0 <= j < k < 16 :: created[j].Id() != created[k].Id()
    {
      forall j, k | 0 <= j < k < 16 ensures created[j].Id() != created[k].Id() {
        IndexOfTileAt(j);
        IndexOfTileAt(k);
      }
    }

    /** The pairing is symmetric and irreflexive. */
    lemma PairsAreSymmetric(a: Node, b: Node)
      requires Structure() && a in created && b in created
      ensures a in b.pairs <==> b in a.pairs
      ensures a !in a.pairs
    {
      PairsAreSharers(a);
      PairsAreSharers(b);
    }

    /** The feature pairs of a node of the board are nodes of the board, each on the grid. */
    lemma PairsInBoard(tile: Node)
      requires Structure() && tile in created
      ensures forall n | n in tile.pairs :: n in created && n.address.Some?
    {
      var j :| 0 <= j < 16 && created[j] == tile;
      assert tile.pairs == PairsOf(created)[j];
    }

    /** The feature pairs of a tile's node are the nodes of its neighbours. */
    lemma PairsAreNeighbours(t: Tile)
      requires Structure()
      ensures NodeOf(t).pairs == set u | u in Neighbours(t) :: NodeOf(u)
    {
      NodeOfIsIdentity();
      PairsAreSharers(NodeOf(t));
      forall n | n in NodeOf(t).pairs ensures n in set u | u in Neighbours(t) :: NodeOf(u) {
        assert n.Id() in Neighbours(t);
      }
    }

    /** Every node of the board has six feature pairs: three sharing its front feature, three its back. */
    lemma PairCount(t: Tile)
      requires Structure()
      ensures |NodeOf(t).pairs| == 6
      ensures |set n | n in NodeOf(t).pairs && n.front == t.front| == 3
      ensures |set n | n in NodeOf(t).pairs && n.back == t.back| == 3
    {
      PairsAreNeighbours(t);
      NodeOfIsIdentity();
      NodesCard(Neighbours(t));
      NeighbourCount(t);
      var sameFront := set u | u in AllTiles() && u != t && u.front == t.front;
      var sameBack := set u | u in AllTiles() && u != t && u.back == t.back;
      SameFrontCount(t);
      SameBackCount(t);
      NodesCard(sameFront);
      NodesCard(sameBack);
      assert (set n | n in NodeOf(t).pairs && n.front == t.front) == set u | u in sameFront :: NodeOf(u);
      assert (set n | n in NodeOf(t).pairs && n.back == t.back) == set u | u in sameBack :: NodeOf(u);
    }

    /** Distinct tiles have distinct nodes, so a set of tiles and its nodes have the same size. */
    lemma {:induction false} NodesCard(s: set<Tile>)
      requires |created| == 16 && Made(created)
      ensures |set u | u in s :: NodeOf(u)| == |s|
      decreases |s|
    {
      if s != {} {
        NodeOfIsIdentity();
        var t :| t in s;
        var rest := s - {t};
        NodesCard(rest);
        var image := set u | u in rest :: NodeOf(u);
        assert (set u | u in s :: NodeOf(u)) == image + {NodeOf(t)};
        assert NodeOf(t) !in image;
      }
    }

    /**
     * The state `play` leaves after claiming the tile at `address` is the
     * game's step from the state before.
     */
    twostate lemma ClaimStep(address: Address)
      requires old(Valid()) && Game.InRange(address)
      requires address in old(playable) && !Truthy(old(grid[address.0, address.1].player))
      requires grid == old(grid) && created == old(created) && tileStack == old(tileStack) && featureMap == old(featureMap)
      requires forall r, c | 0 <= r < grid.Length0 && 0 <= c < grid.Length1 :: grid[r, c] == old(grid[r, c])
      requires forall n | n in created :: n.pairs == old(n.pairs) && n.address == old(n.address)
      requires forall n | n in created && n != grid[address.0, address.1] :: n.player == old(n.player)
      requires grid[address.0, address.1].player == Some(old(active))
      requires forall n | n in grid[address.0, address.1].pairs :: n.address.Some?
      requires playable == MovesFrom(grid[address.0, address.1])
      requires active == Game.Flip(old(active)) && moveCounter == old(moveCounter) + 1
      ensures Valid() && Layout() == old(Layout())
      ensures Snapshot() == Game.Step(old(Layout()), old(Snapshot()), address)
    {
      var tile := grid[address.0, address.1];
      NodeOfIsIdentity();
      StructureKept();
      OwnerAfterClaim(tile);
      PlayableAfterClaim(tile);
      assert old(tile == NodeOf(Layout().tileAt[address]));
      assert old(Game.Unowned(Snapshot().owner, tile.Id()));
      Game.StepPreservesInv(old(Layout()), old(Snapshot()), address);
    }

    /** An address that is not playable, or whose tile has a player, is a step that changes nothing. */
    lemma RejectedStep(address: Address)
      requires Valid() && Game.InRange(address)
      requires !(address in playable && !Truthy(grid[address.0, address.1].player))
      ensures Game.Step(Layout(), Snapshot(), address) == Snapshot()
    {
      NodeOfIsIdentity();
      var tile := grid[address.0, address.1];
      assert tile == NodeOf(Layout().tileAt[address]);
      UnownedIsPlayable(tile.Id());
    }

    /** A tile is unowned in the game state exactly when its node is playable. */
    lemma UnownedIsPlayable(t: Tile)
      requires |created| == 16
      ensures Game.Unowned(Snapshot().owner, t) <==> NodeOf(t).IsPlayable()
    {
    }

    /** Changing nothing but the nodes' players keeps the structure and the layout. */
    twostate lemma StructureKept()
      requires old(Structure())
      requires grid == old(grid) && created == old(created) && tileStack == old(tileStack) && featureMap == old(featureMap)
      requires forall r, c | 0 <= r < 4 && 0 <= c < 4 :: grid[r, c] == old(grid[r, c])
      requires forall n | n in created :: n.pairs == old(n.pairs) && n.address == old(n.address)
      ensures Structure() && Layout() == old(Layout())
    {
      PairedKept(created);
      forall r, c | 0 <= r < 4 && 0 <= c < 4 ensures grid[r, c] in created && grid[r, c].address == Some((r, c)) {
        assert old(grid[r, c] in created && grid[r, c].address == Some((r, c)));
      }
      assert Structure();
      LayoutKept();
    }

    /** With the grid, the nodes and their addresses unchanged, so is the layout. */
    twostate lemma LayoutKept()
      requires old(Placed()) && Placed() && created == old(created) && grid == old(grid)
      requires forall r, c | 0 <= r < 4 && 0 <= c < 4 :: grid[r, c] == old(grid[r, c])
      requires forall n | n in created :: n.address == old(n.address)
      ensures Layout() == old(Layout())
    {
      assert Layout().tileAt == old(Layout().tileAt);
      assert Layout().addressOf == old(Layout().addressOf);
    }

    /** Giving one node a player adds exactly that tile to the owners. */
    twostate lemma OwnerAfterClaim(tile: Node)
      requires |created| == 16 && Made(created) && created == old(created) && tile in created && tile.player.Some?
      requires forall n | n in created && n != tile :: n.player == old(n.player)
      ensures Snapshot().owner == old(Snapshot().owner)[tile.Id() := tile.player.value]
    {
      NodeOfIsIdentity();
    }

    /** The moves `play` computes from a claimed node are the cells of its unowned neighbours. */
    lemma PlayableAfterClaim(tile: Node)
      requires Structure() && tile in created
      ensures forall n | n in tile.pairs :: n in created && n.address.Some?
      ensures (set n | n in tile.pairs && n.IsPlayable() :: n.address.value)
           == (set u | u in Neighbours(tile.Id()) && Game.Unowned(Snapshot().owner, u) :: Layout().addressOf[u])
    {
      NodeOfIsIdentity();
      PairsAreNeighbours(tile.Id());
      PairsInBoard(tile);
      forall u ensures Game.Unowned(Snapshot().owner, u) <==> NodeOf(u).IsPlayable() {
        UnownedIsPlayable(u);
      }
    }
  }
}
