/**
 * A tile node: its fixed identity plus the state that setup and play
 * change in place (its feature pairs, its address and its player).
 */
module Nodes {
  import opened Wrappers
  import opened Tiles

  /**
   * Python's truth value of a node's `player`: `None` and `0` are both
   * false, so both read as "no player".
   */
  predicate Truthy(player: Option<int>) {
    player.Some? && player.value != 0
  }

  class Node {
    const front: Front
    const back: Back
    /** The other nodes this node shares a feature with (`feature_pairs`). */
    var pairs: set<Node>
    var address: Option<Address>
    var player: Option<int>

    constructor (front: Front, back: Back)
      ensures this.front == front && this.back == back
      ensures pairs == {} && address == None && player == None
    {
      this.front := front;
      this.back := back;
      pairs := {};
      address := None;
      player := None;
    }

    /** The node's identity as a tile value. */
    function Id(): Tile {
      Tile(front, back)
    }

    /** `set_address`: overwrites the address, with no assign-once check. */
    method SetAddress(a: Address)
      modifies this`address
      ensures address == Some(a)
    {
      address := Some(a);
    }

    /**
     * `add_feature_pair`: when `node` is not yet a pair of this node, records
     * the edge on both nodes; otherwise changes nothing, so a repeated call
     * is a no-op.
     */
    method AddFeaturePair(node: Node)
      modifies this`pairs, node`pairs
      ensures node in pairs
      ensures old(node in pairs) ==> pairs == old(pairs) && node.pairs == old(node.pairs)
      ensures old(node !in pairs) ==> pairs == old(pairs) + {node} && node.pairs == old(node.pairs) + {this}
      ensures old(node !in pairs || this in node.pairs) ==> this in node.pairs
    {
      if node !in pairs {
        pairs := pairs + {node};
        node.pairs := node.pairs + {this};
      }
    }

    /** `is_playable`: true exactly when the node has no (truthy) player. */
    predicate IsPlayable()
      reads this
    {
      !Truthy(player)
    }

    /**
     * `play`: claims the node for `color` when it has no player. Python
     * returns `None` after claiming and `False` when the node already has
     * a player; `result` mirrors that as `None` and `Some(false)`.
     */
    method Play(color: int) returns (result: Option<bool>)
      modifies this`player
      ensures old(IsPlayable()) ==> player == Some(color) && result == None
      ensures !old(IsPlayable()) ==> player == old(player) && result == Some(false)
    {
      if !Truthy(player) {
        player := Some(color);
        result := None;
      } else {
        result := Some(false);
      }
    }
  }
}
