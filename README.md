# Niya rules engine, modelled in Dafny

This project models the game engine of Niya. Niya is a two-player tile game on a 4x4 grid of sixteen tiles. Each tile carries one front feature (sun, animal, poem, cloud) and one back feature (flower, blossom, pine, leaf), and no two tiles are alike.

The engine builds one node per tile. It links every pair of nodes that share a feature, shuffles the nodes onto the grid and starts play on the twelve border cells. `Board.play` claims the tile at an address for the active player. The next playable cells are then those of the claimed tile's still unclaimed feature pairs, the turn passes and the move counter grows. `Board.evaluate_board` names the active player once nothing is playable.

Layout of the project:

- `tiles.dfy` (module `Tiles`): tile identities as values, and the "shares a feature" relation with its counts.
- `nodes.dfy` (module `Nodes`): the mutable `Node` class with its pairs, address and player.
- `game.dfy` (module `Game`): the rules on values, that is the grid layout, the state `play` changes, the `play` transition (`Step`), sequences of plays (`Run`) and `evaluate_board`. It also holds the invariant every reachable state keeps and the properties proved from it.
- `boards.dfy` (module `Boards`): the mutable `Board` class with a 4x4 `array2` grid, the construction of the nodes, the feature map and the pairs, and `play` and `evaluate_board`. Each is proved against the `Game` definitions: `Board.Play` ends in exactly the state `Game.Step` computes from the state before, and keeps the invariant.
- `wrappers.dfy` (module `Wrappers`): `Option`, which stands for Python's `None`.

## Model

| member | source | states |
|---|---|---|
| Nodes.Node.constructor | Niya/model.py:24-29 | A new node has the given front and back features, no feature pairs, no address and no player |
| Nodes.Node.SetAddress | Niya/model.py:31-32 | The node's address becomes the given address, and nothing else of the node changes |
| Nodes.Node.AddFeaturePair | Niya/model.py:34-37 | Afterwards `node` is a pair of this node. If it was not one before, the edge is added on both sides. If it was, nothing changes, so a repeated call is a no-op |
| Boards.Board.UnownedIsPlayable | Niya/model.py:39-40 | A node is playable (`is_playable`, no truthy player) exactly when its tile is unowned in the game state |
| Nodes.Node.Play | Niya/model.py:42-46 | A node with no truthy player takes `color`, and the result is `None`. A node that already has a player keeps it, and the result is `False` |
| Boards.Board.constructor | Niya/model.py:64-91 | A new board is valid and its state is the initial state: no owners, the twelve border cells playable, RED to move, counter 0. The tile stack is the creation order permuted by the given shuffle |
| Boards.Board.Setup | Niya/model.py:68-88 | Builds 16 fresh unplayed nodes in front-major order, paired exactly by shared features and indexed by the feature map. The i-th shuffled node sits at cell (i/4, i%4) and carries that address |
| Boards.Board.NewFeatureMap | Niya/model.py:120-127 | The feature map has all eight features as keys, each with the empty set |
| Boards.Board.BuildTiles | Niya/model.py:76-83 | The nested loop makes 16 fresh nodes, the k-th bearing the k-th (front, back) pair. Each node's pairs are exactly the other nodes sharing a feature. Each feature maps to exactly the nodes that bear it |
| Boards.Board.AddTile | Niya/model.py:78-83 | One loop iteration appends a fresh node for the next tile. It keeps the pairing exact and the feature map exact, and leaves earlier nodes' addresses and players alone |
| Boards.Board.Link | Niya/model.py:79-80 | After the loop the new node's pairs are exactly `matches`. Each node in `matches` gained the new node as a pair, and nothing else changed |
| Boards.Board.PlaceTiles | Niya/model.py:85-88 | The i-th shuffled node gets address (i/4, i%4) and is written to that grid cell. Pairs and players are untouched |
| Boards.ExtendPairs | Niya/model.py:78-82 | The new node is not among the earlier ones. Pairing it with the feature map's nodes for its two features leaves the pairs equal to the shared-feature relation again |
| Boards.ExtendIndex | Niya/model.py:81-82 | Adding the new node under its front and back features keeps the feature map exact |
| Boards.Board.ShuffledStructure | Niya/model.py:84-88 | Placing the permuted nodes in row-major order puts every node on exactly one cell whose address it carries. Every cell holds a node |
| Boards.Board.InitialSnapshot | Niya/model.py:68-69 | Before any play no node has a player, so the board's state is the game's initial state |
| Boards.Board.FeatureMapHoldsBearers | Niya/model.py:71 | After construction, `feature_map[f]` holds exactly the nodes of the four tiles bearing f |
| Boards.Board.NodesAreDistinct | Niya/model.py:76-78 | No two nodes created by the nested loop bear the same (front, back) pair |
| Boards.Board.PairsAreSharers | Niya/model.py:79-80 | A node's feature pairs are exactly the other nodes of the board that share a front or back feature with it |
| Boards.Board.PairsAreSymmetric | Niya/model.py:34-37 | The pairing is symmetric (a is a pair of b iff b is a pair of a) and no node is its own pair |
| Boards.Board.PairsAreNeighbours | Niya/model.py:79-80 | The pairs of a tile's node are the nodes of the tiles sharing a feature with it |
| Boards.Board.PairCount | Niya/model.py:76-83 | Every node ends up with exactly six feature pairs, three per feature |
| Boards.Board.LayoutIsValid | Niya/model.py:84-88 | The grid and the node addresses form a bijection between the sixteen cells and the sixteen tiles |
| Boards.Board.GetFeatureMatches | Niya/model.py:93-94 | The result is exactly the nodes sharing a feature with `tile`. For a node of the board that is its feature pairs plus itself |
| Boards.Board.Play | Niya/model.py:96-107 | Keeps the board valid and the layout fixed. The new state is exactly `Game.Step` applied to the old state at that address |
| Boards.Board.Claim | Niya/model.py:101-107 | The tile takes the active player and the playable moves become the addresses of its still playable pairs. The active player flips and the counter grows by one. No other node, cell or field changes |
| Boards.Board.ClaimStep | Niya/model.py:100-107 | A legal play's effect on the board is `Game.Step` of the old state, and it keeps the board valid |
| Boards.Board.RejectedStep | Niya/model.py:100 | An address that is not playable, or whose tile has a player, is a step that changes nothing |
| Boards.Board.PlayableAfterClaim | Niya/model.py:102 | The moves computed from the claimed node's pairs are the cells of the unowned tiles sharing a feature with it |
| Boards.Board.EvaluateBoard | Niya/model.py:109-117 | The result is the active player when no move is playable, and `None` otherwise |
| Game.AddressesAreRowMajor | Niya/model.py:56-59 | The address list has sixteen entries, and entry i is (i/4, i%4) |
| Game.InitialMovesAreBorder | Niya/model.py:90-91 | The initial playable moves are exactly the cells on the outer ring. The four inner cells are not among them |
| Game.InitialMovesCount | Niya/model.py:91 | There are twelve initial moves |
| Game.InitialIsValid | Niya/model.py:68-69 | The initial state satisfies the game invariant |
| Game.StepPreservesInv | Niya/model.py:96-107 | Every play, accepted or not, keeps the invariant. Players are RED or BLACK, the counter equals the number of owned tiles, the active player follows the counter's parity, and every playable cell holds an unowned tile |
| Game.Step | Niya/model.py:96-107 | A play either changes nothing, or its cell was playable and its tile was unowned. In that case the tile goes to the active player, the turn passes and the counter grows by one. Every other owned tile keeps its player |
| Game.Evaluate | Niya/model.py:109-117 | The result names a player exactly when no move is playable, and then it is the active player |
| Game.FullBoardEndsGame | Niya/model.py:107-117 | Once all sixteen tiles have a player no move is playable, so the evaluation names a player |
| Game.StepSpec | Niya/model.py:96-107 | A play is accepted iff its cell is playable. Then the tile goes to the mover, the playable cells become exactly those of its unowned feature-sharing tiles, the turn passes to -active and the counter grows by one. A rejected play changes nothing |
| Game.OwnedTileIsNeverReplayed | Niya/model.py:100 | Playing a tile that already has a player changes nothing |
| Game.StepKeepsOwners | Niya/model.py:100-101 | No play takes a tile from its player or changes that player |
| Game.RunKeepsOwners | Niya/model.py:96-107 | Over any sequence of plays, owned tiles keep their players |
| Game.RunPreservesInv | Niya/model.py:96-107 | Any sequence of plays keeps the invariant |
| Game.MovesBounded | Niya/model.py:107 | The move counter stays between 0 and 16 |
| Game.GameFromStart | Niya/model.py:68-69 | From a fresh board after any plays: RED moves after an even number of accepted plays and BLACK after an odd number. The counter equals the owned tiles, and at most 16 plays are accepted |
| Game.GameOverIsFinal | Niya/model.py:116-117 | Once no move is playable, the evaluation names the active player and no further play is accepted |
| Game.EvaluateNamesPlayerToMove | Niya/model.py:103-117 | When a play ends the game, the evaluation names the player now to move, the opponent of the one who made that play |
| Tiles.Index | Niya/model.py:76-78 | Every tile has a creation position k in 0..15, and the k-th tile of the nested loop is that tile |
| Tiles.IndexOfTileAt | Niya/model.py:76-78 | The nested loop never makes the same tile twice |
| Tiles.AllTiles | Niya/model.py:15-22 | Every (front, back) combination is one of the tiles |
| Tiles.AllTilesCount | Niya/model.py:8 | There are exactly sixteen tiles and no duplicates |
| Tiles.Bearers | Niya/model.py:79-82 | Exactly four tiles bear any given feature |
| Tiles.NeighbourCount | Niya/model.py:79-80 | Every tile shares a feature with exactly six others |

## Left out

- `main`, `pprint`, `print` and `Node.__str__` are output only.
- The `numpy` import is unused by the engine.
- `shuffle` is random. The constructor takes the permutation it applies as a parameter, and any permutation is allowed.
- Boards.Board.Play: requires an address on the grid. In Python, indices from -4 to -1 select a cell by wrapping around. Such an address is never in `playable_moves`, which only ever holds on-grid cells, so the call changes nothing. Indices of -5 or less, or of 4 or more, raise `IndexError`. Neither case is modelled.
- Boards.Board.Play: the Python `playable_moves` is a list, here a set of addresses. A list comprehension over a set of distinct nodes, each with a distinct address, has no duplicates. Only its iteration order, which depends on Python's set hashing, is lost.
- `Board.grid` starts as a list of `None`s. Here it is an `array2<Node?>` that is completely filled during construction.
- `Board.play` sets `tile.player` directly rather than calling `Node.play`. The model follows that, and `Nodes.Node.Play` is modelled on its own.
- Boards.Board.EvaluateBoard: the docstring of `evaluate_board` also lists four-in-a-row and square win conditions. The code does not check them, and the model follows the code. The code also returns `active_player` after it has already been flipped by the last `play`. That is the player to move, not the player who made the last move (`Game.EvaluateNamesPlayerToMove`).
- The class constants `RED`/`BLACK`, the feature names and `addresses` are Dafny constants and datatypes. The feature names are enumerations rather than strings.
